# A verified model of the unipdf byte and operator engine

Dafny 4.11 models of the parts of unipdf where bytes, operators and object graphs are transformed, with
proofs of what those transformations keep. `dafny verify dfyconfig.toml` checks the project.

| modules | what they model | main results |
|---|---|---|
| `Bytes`, `Objects`, `Dictionary`, `Syntax`, `Reader`, `SyntaxTokens`, `SyntaxRoundTrip`, `SyntaxSpellings`, `SyntaxForms`, `SyntaxProgress` | writing PDF objects and reading them with the file reader and the content stream reader | `SyntaxRoundTrip.RoundTripIff`: a tree comes back exactly if it is clean; `SyntaxProgress.HangsIff`: when the file reader does not end |
| `ContentStream` | writing and reading lists of operations | `ContentStream.RoundTripIff`, `ContentStream.NeverHangs` |
| `RunLength`, `Ascii85`, `AsciiHex`, `MultiEncoder`, `Predictors` | stream filters, their chains, and the PNG and TIFF predictors | losslessness of each filter, of every chain, and of every choice of row filters, with its exact condition |
| `GraphicsState`, `Wrapping`, `Merge`, `MergePanics`, `MergeKept`, `MergeOperators` | the graphics state machine, the bracketing of content by `q` and `Q`, and the renaming of resources when contents are merged | `Wrapping.SameViewIff`, `Wrapping.WrapRestoresIff`, `Wrapping.AddedRunsAloneIff`, `MergeKept.MergeLinks`, `MergeOperators.Linked`, `MergeKept.SurvivesIff`, `MergePanics.PanicsIff` |
| `Xref`, `XrefRows`, `XrefNext`, `Repair` | cross-reference chains, the next-offset search and the top-down repair scan | `XrefRows.BoundByEntry`, `XrefRows.EndsIff`, `Xref.SameAsOnce`, `Repair.RepairedIff` |
| `Crypt`, `CryptPlaces`, `CryptRoundTrip` | encryption and decryption of object graphs with sharing and cycles | `CryptPlaces.EachObject`, `CryptRoundTrip.RoundTrip`, `CryptRoundTrip.ComesBackIff` |
| `TextWrap`, `Pagination`, `Intervals` | line breaking, page breaking, and the union of intervals | `TextWrap.WrapFits`, `TextWrap.EndsLineIff`, `Pagination.EndlessIff`, `Intervals.SamePointsSameLength`, `Intervals.HasHBorderIff` |

Code that works step by step is modelled by methods and classes with loops; each is proved equal to a
specification function, and the results are about that function. What such a function computes is stated again
without it: by literal texts, by formulas, or by conditions on the input. Pure code is modelled by functions only.
Readers are modelled by the bytes that are still unread. A loop of the source that does not end for some input
is modelled by an outcome of its own (`Hang`, `Endless`), and the inputs that lead to it are characterised: those
of the array loop by `SyntaxProgress.HangsIff`, those of the page loop by `Pagination.EndlessIff`.

Where the code differs from what its comments promise, the model follows the code and the exact condition is
proved:

- `WrapIfNeeded` says that content added later starts with all states in the default condition. That holds for
  a list if and only if it is `Restorable` (`Wrapping.WrapRestoresIff`, `Wrapping.AddedRunsAloneIff`): it is
  wrapped and has no `Q` too many; or it has at most one `Q` too many and no operator behind that; or it ends
  with more of them and has no operator outside a `q` and its `Q` but for the `q` that is added. The list
  `Q cm` of `Wrapping.NotRestored` is not.
- The file reader does not end if it comes to an array element that starts with a comma taken for a number, as
  in `[,1]`, and ends on all other input (`SyntaxProgress.HangsIff`, `SyntaxProgress.CommaHangs`).
- The ASCII85 encoder writes `z` for a short group of zeros, which comes back as four bytes
  (`Ascii85.LosslessIff`). The RunLength encoder writes nothing for no data, which cannot be decoded
  (`RunLength.LosslessIff`).
- The encoder for predictor 11 ignores `Colors` (`Predictors.SubLosslessIff`), and so does the LZW row loop
  (`Predictors.LzwAgreesIff`).
- Merging contents may cost the page a binding: a used name that is not bound in the added resources overwrites
  the page's font of that name, or its XObject or graphics state with the empty name
  (`MergeKept.KeptThroughoutIff`, `MergeKept.MergeKeepsIff`, `MergeKept.PageLosesFont`). The added operations may
  lose theirs in the same way (`MergeKept.SurvivesIff`, `MergeKept.EmptyNameSurvivesIff`, `MergeKept.FontTaken`,
  `MergeKept.UnboundTakesImage`).
- Merging an operation whose XObject is not there leaves a nil stream under the empty name, and the next lookup of
  that name panics (`MergePanics.PanicsIff`, `MergePanics.MissingThenNoName`). In particular what such a merge
  leaves cannot be merged again (`MergePanics.MergeAgainPanics`).
- An object that looks like an encryption dictionary is encrypted but not decrypted, and neither is what only it
  leads to (`CryptRoundTrip.PassedOverStaysEncrypted`, `CryptRoundTrip.ComesBackIff`).

## Model

| member | source | states |
|---|---|---|
| `SyntaxRoundTrip.RoundTripIff` | core/parser.go:209-649 | for every tree of null, booleans, 64-bit integers, strings, names, references, arrays and dictionaries, and anything that may follow it, reading the written text gives the same tree and stops right behind it if and only if references are not negative and short enough and no `...null` key stands before a name; the reader never loops on written text |
| `SyntaxRoundTrip.ReadClean` | core/primitives.go:333-394 | a clean tree is read back behind any text that may follow, by both readers |
| `SyntaxRoundTrip.ReadAny` | core/parser.go:578-649 | whatever an unclean tree is read as, it is a clean tree, so never the one that was written |
| `SyntaxRoundTrip.ConsumesNothingIff` | core/parser.go:484-575 | the file reader returns an object without consuming a byte exactly at a comma that the number pattern lets through |
| `SyntaxProgress.RestIsSuffix` | core/parser.go:484-575 | whatever either reader reads, what it leaves unread is the end of its input |
| `SyntaxProgress.HangsIff` | core/parser.go:407-433 | for all bytes, the file reader does not end if and only if its calls and loop turns lead to an array element that starts with a comma which the number pattern lets through |
| `SyntaxProgress.HangNeedsComma` | core/parser.go:407-433 | the file reader ends on all bytes without a comma at which the 15 bytes that it looks ahead match the number pattern |
| `SyntaxProgress.NoCommaNoHang` | core/parser.go:407-433 | in particular on all bytes without a comma |
| `SyntaxProgress.CommaHangs` | core/parser.go:407-433 | on `[,1]` it does not |
| `SyntaxTokens.NameRead` | core/parser.go:209-285 | every byte string comes back as a name from its `#` escapes |
| `SyntaxTokens.StringRead` | core/parser.go:293-374 | every byte string comes back from its escaped literal form, with balanced and unbalanced parentheses |
| `SyntaxTokens.HexStringRead` | core/parser.go:377-404 | every byte string comes back from its hexadecimal form |
| `SyntaxTokens.IntegerRead` | core/utils.go:403-469 | every 64-bit integer comes back from its decimal form |
| `SyntaxTokens.ReferenceRead` | core/parser.go:459-474 | a reference of at most twelve digits is recognised in the 15 bytes the reader looks ahead, and read whole |
| `SyntaxSpellings.LiteralIsRead` | core/parser.go:293-374 | a literal string written with any mix of plain bytes, escapes, octal codes and nested parentheses is read as what these stand for: an escape by its letter, one to three octal digits as the base-eight number modulo 256 |
| `SyntaxSpellings.ThreeDigits` | core/parser.go:311-336 | `\` and the three octal digits of any x below 512 are read as the byte x modulo 256, at any depth of parentheses |
| `SyntaxSpellings.TwoDigits` | core/parser.go:311-336 | the two digits of x below 64 in front of something else are read as x |
| `SyntaxSpellings.OneDigit` | core/parser.go:311-336 | and the one digit of x below 8 |
| `SyntaxSpellings.EscapeMeansIt` | core/parser.go:338-356 | `n`, `r`, `t`, `b`, `f`, parentheses and the backslash behind a backslash stand for what they name, and no other byte is an escape |
| `SyntaxSpellings.HexStringIsRead` | core/parser.go:377-404 | digits of either case with white space anywhere between them are read in pairs, a missing last digit as 0 |
| `SyntaxSpellings.NameIsRead` | core/parser.go:209-285 | a name written with any mix of plain bytes and `#` codes is read as what these stand for |
| `SyntaxSpellings.SignedIsRead` | core/utils.go:403-469 | an integer with a sign and leading zeros has its value, or 0 if that needs more than 64 bits |
| `SyntaxSpellings.SpacesAreSkipped` | core/parser.go:109-125 | white space in front of an object changes nothing, in both readers |
| `SyntaxSpellings.CommentIsSkipped` | core/parser.go:484-510 | a comment in front of an object, ended by a carriage return or a line feed, changes nothing, in both readers |
| `SyntaxForms.EscapesAre` | core/primitives.go:333-368 | which bytes of a literal string are written as escapes, and which ones, as literal text |
| `SyntaxForms.NameBytesAre` | core/primitives.go:376-394 | a byte of a name is written as it is if it is regular and from `!` to `~` other than `#`, and as `#` and two digits otherwise |
| `SyntaxForms.TokensAre` | core/primitives.go:333-394 | strings, names, integers and references are written with their brackets, slash, sign and `R` |
| `SyntaxForms.ContainersAre` | core/primitives.go:515-528 | arrays are their elements joined by blanks in brackets; dictionaries list their entries in double angle brackets |
| `SyntaxForms.Classes` | core/symbols.go:9-47 | white space, delimiters and the bytes that end a name, by their characters |
| `SyntaxForms.DigitClasses` | core/symbols.go:24-31 | decimal, octal and hexadecimal digits, by their characters |
| `SyntaxForms.HexDigits` | core/primitives.go:333-394 | the digits that are written, lower case and capital, by their characters |
| `SyntaxForms.DecimalDigits` | core/utils.go:403-469 | one more decimal digit is ten times the value and the digit |
| `SyntaxForms.Int64` | core/utils.go:403-469 | the bounds of 64-bit integers |
| `SyntaxForms.NameByteIsRead` | core/parser.go:209-285 | a byte of a name that is no code is kept by the file reader, and turned into UTF-8 by the content stream reader |
| `SyntaxForms.BareHashIsRead` | core/parser.go:209-285 | a `#` without two hexadecimal digits is kept by the file reader and refused by the other one |
| `SyntaxForms.FloatIsRead` | core/utils.go:403-469 | a number with a point or an exponent is a float with its text, and reading stops behind it |
| `SyntaxForms.HexAnyIsRead` | core/parser.go:377-404 | whatever stands in a hexadecimal string: the file reader pairs all but white space, the other one the digits only |
| `SyntaxForms.HexPairs` | core/parser.go:377-404 | pairs of digits are bytes, up to a pair that is none, and a digit left over is the higher one |
| `SyntaxForms.NullKeyAtEnd` | core/parser.go:578-649 | input that ends behind a key `...null`, however it is spelled, makes the file reader index an empty look-ahead |
| `SyntaxForms.EndsInNullIff` | core/parser.go:578-649 | a key is of that kind if and only if it is `null` behind something else |
| `SyntaxForms.CommentBeforeKey` | core/parser.go:209-285 | a comment in front of a key is passed over with its line |
| `Objects.TextThenIs` | core/primitives.go:515-528 | the continuation form of the writer is the written text followed by the rest |
| `Dictionary.PdfObjectDictionary.Set` | core/primitives.go:651-657 | the key list and the map stay in step; a new key goes last, a present one keeps its place |
| `Dictionary.PdfObjectDictionary.Entries` | core/primitives.go:635-648 | the entries in key order |
| `Reader.Parser.ParseName` | core/parser.go:209-285 | the loop reads the name of the specification and stops where it does |
| `Reader.Parser.ParseString` | core/parser.go:293-374 | the loop with its parenthesis counter and octal escapes meets the specification, whose octal codes `SyntaxSpellings.ThreeDigits` and the lemmas beside it give in base eight |
| `Reader.Parser.ParseHexString` | core/parser.go:377-404 | the loop meets the specification, in both readers |
| `Reader.Parser.ParseNumber` | core/utils.go:403-469 | the loop with its flags for sign, point and exponent meets the specification |
| `Reader.Parser.ParseArray` | core/parser.go:407-433 | the element loop meets the specification, including the case that it never ends |
| `Reader.Parser.ParseDict` | core/parser.go:578-649 | the entry loop meets the specification, with the rewriting of `...null` keys |
| `Reader.Parser.ParseObject` | core/parser.go:484-575 | the dispatch on the next bytes meets the specification, for the file reader |
| `Reader.Parser.ParseContentWord` | contentstream/parser.go:464-533 | numbers, keywords and operators of content streams |
| `ContentStream.RoundTripIff` | contentstream/contentstream.go:81-107 | for every list of operations with proper operators, reading what Bytes writes gives the same list if and only if every parameter is clean: no references and no `...null` key before a name |
| `ContentStream.ReadOperations` | contentstream/parser.go:39-73 | clean lists come back in order, behind any operations read before |
| `ContentStream.AnyOperations` | contentstream/parser.go:39-73 | whatever list is read back holds clean parameters only |
| `ContentStream.NeverHangs` | contentstream/parser.go:464-533 | on no bytes at all does the content stream reader loop for ever |
| `ContentStream.ReadInFront` | contentstream/parser.go:39-73 | clean operations in front of any bytes are read, and reading goes on behind them as it would alone |
| `ContentStream.StopsAtImage` | contentstream/parser.go:39-73 | at BI reading stops with the operations before it |
| `ContentStream.StopsAtDelimiter` | contentstream/parser.go:464-533 | at a delimiter that starts no object it stops with an error and the operations before it |
| `ContentStream.TableOperators` | contentstream/operand_list.go:16-90 | every operator of the table but BI, in front of white space, is read as an operator and nothing else is consumed |
| `ContentStream.ToBytes` | contentstream/contentstream.go:81-107 | the loops write the text of the list |
| `ContentStream.ParseContent` | contentstream/parser.go:39-73 | the loops read the list of the specification, stopping at errors and inline images |
| `RunLength.RoundTrip` | core/encoding.go:1277-1342 | every non-empty byte sequence comes back, with runs and literals cut at 127 and a last run of one wrapped to a length byte of 0; the output of n bytes has m bytes with 3(m-1) <= 4n+2 and ends in the end-of-data mark |
| `RunLength.LosslessIff` | core/encoding.go:1277-1342 | the data comes back if and only if there is some |
| `RunLength.RunKeepsInvariant` | core/encoding.go:1290-1330 | what the encoder state stands for, and its cost, through every step of every run |
| `RunLength.PacketsDecoded` | core/encoding.go:1238-1269 | every sequence of packets in front of the end-of-data mark, up to 128 bytes each, is decoded to its data |
| `RunLength.RunIsPacked` | core/encoding.go:1277-1342 | a run of n equal bytes, n from 2 to 126, is written as 257 - n and the byte |
| `RunLength.LiteralIsCopied` | core/encoding.go:1277-1342 | up to 126 bytes without equal neighbours are written as they are, behind their number less one |
| `RunLength.EncodeBytes` | core/encoding.go:1277-1342 | the loop computes the encoding |
| `RunLength.DecodeBytes` | core/encoding.go:1238-1269 | the loop computes the decoding, or reports that data is missing |
| `Ascii85.LosslessIff` | core/encoding.go:1581-1621 | the data comes back if and only if it does not end in a short group of zeros; then it comes back with four zeros in their place |
| `Ascii85.TruncationKeepsBytes` | core/encoding.go:1522-1549 | cutting the five digits of a short group and padding with 84 stays below 2^32 and keeps the bytes |
| `Ascii85.WhiteSpaceIsIgnored` | core/encoding.go:1477-1552 | for every text with a tilde: if the first one is that of `~>`, white space before it and anything behind it change nothing, on well-formed and malformed text; otherwise the text is refused |
| `Ascii85.FiveDigits` | core/encoding.go:1565-1578 | the five digits below 85 give the 32-bit value back |
| `Ascii85.GroupIsWritten` | core/encoding.go:1581-1621 | a group of one to four bytes is written as `z` if it is zero, and otherwise as the first of the five codes 33 plus the digits in base 85, one more than it has bytes |
| `Ascii85.TextIsGroups` | core/encoding.go:1581-1621 | the text is that of the groups of four in order and of the short one, and `~>` |
| `Ascii85.WithoutMark` | core/encoding.go:1477-1552 | a short group at the end of a text without `~>` gives four bytes, in 32-bit arithmetic |
| `Ascii85.Base256ToBase85` | core/encoding.go:1565-1578 | the division loop computes those digits |
| `Ascii85.EncodeBytes` | core/encoding.go:1581-1621 | the loop computes the encoding |
| `Ascii85.DecodeBytes` | core/encoding.go:1477-1552 | the loops compute the decoding in 32-bit arithmetic |
| `AsciiHex.RoundTrip` | core/encoding.go:1394-1443 | every byte sequence comes back, and the output ends in `>` |
| `AsciiHex.EncodedForm` | core/encoding.go:1433-1443 | every byte is written as two capital digits and a space, and `>` ends the data |
| `AsciiHex.DecodeText` | core/encoding.go:1394-1425 | digits with white space anywhere are decoded in pairs, and any other character before `>` is refused |
| `AsciiHex.DecodeBytes` | core/encoding.go:1394-1425 | the loop computes the decoding |
| `AsciiHex.EncodeBytes` | core/encoding.go:1433-1443 | the loop computes the encoding |
| `MultiEncoder.ChainRoundTrip` | core/encoding.go:2250-2288 | if every stage gives back what it is handed, the chain does |
| `MultiEncoder.LastFilterDecides` | core/encoding.go:2250-2288 | what a chain of ASCIIHex, ASCII85 and RunLength of any length gives back is what its last filter alone gives back |
| `MultiEncoder.ChainLosslessIff` | core/encoding.go:2250-2288 | such a chain is lossless on the data if and only if it is empty or its last filter is |
| `MultiEncoder.FromFilters` | core/encoding.go:2051-2159 | the encoder made from an array of filters has theirs in order, and RunLength in the array is an error |
| `MultiEncoder.MultiEncoder.EncodeBytes` | core/encoding.go:2274-2288 | the loop applies the encoders from last to first and stops at an error |
| `MultiEncoder.MultiEncoder.DecodeBytes` | core/encoding.go:2250-2265 | the loop applies the decoders from first to last and stops at an error |
| `Predictors.PngRoundTrip` | core/encoding.go:334-403 | every non-empty image comes back from its filtered rows, for every choice of None, Sub, Up, Average and Paeth for each row |
| `Predictors.PngDecodesIff` | core/encoding.go:334-403 | the decoder accepts exactly the non-empty whole numbers of rows with known tags, and what it accepts is the filtered form of what it returns |
| `Predictors.FilterFormulas` | core/encoding.go:359-393 | byte by byte, what None, Sub, Up, Average and Paeth rows store, as in section 6 of RFC 2083 |
| `Predictors.PaethIsNearest` | core/paeth.go:9-42 | the Paeth predictor is the nearest of left, above and corner to left + above - corner, with ties in this order |
| `Predictors.DistanceIs` | core/paeth.go:9-42 | nearest by the absolute difference |
| `Predictors.PredictorNumbers` | core/encoding.go:293-411 | up to 1 nothing is undone, 2 undoes TIFF rows, 10 to 15 undo PNG rows of any tags, and all other numbers are refused |
| `Predictors.NoColumns` | core/encoding.go:293-468 | without columns, TIFF data is dropped, the encoder divides by zero, and an Average row indexes outside the buffer |
| `Predictors.UndoResidues` | core/encoding.go:359-393 | undoing the filter of a row gives the raw row back |
| `Predictors.ResiduesOfUndo` | core/encoding.go:359-393 | filtering a recovered row gives the stored row back |
| `Predictors.TiffRoundTrip` | core/encoding.go:295-333 | horizontal differencing is undone for every image |
| `Predictors.SubLosslessIff` | core/encoding.go:438-468 | what the encoder for predictor 11 writes is read back if and only if there is data and Colors is 1 |
| `Predictors.LzwAgreesIff` | core/encoding.go:772-827 | whatever the LZW row loop accepts is decoded as by the Flate loop if and only if Colors is 1 |
| `Predictors.Paeth` | core/paeth.go:9-42 | the arithmetic without branches picks what PaethPredictor of section 6.6 of RFC 2083 picks |
| `Predictors.UndoSub` | core/encoding.go:362-365 | the loop recovers the row in place and leaves the rest of the buffer |
| `Predictors.UndoUp` | core/encoding.go:366-370 | the loop recovers the row in place from the row above |
| `Predictors.UndoAverage` | core/encoding.go:371-378 | the two loops recover the row in place |
| `Predictors.UndoPaeth` | core/encoding.go:379-390 | the loop recovers the row in place |
| `Predictors.PostDecodePredict` | core/encoding.go:293-411 | the row loops over the buffer compute the data, or the error, of the specification |
| `Predictors.LzwRows` | core/encoding.go:795-822 | the row loop of the LZW filter computes its specification |
| `Predictors.EncodeSubRows` | core/encoding.go:438-468 | the row loop with its reused buffer computes the Sub rows |
| `Wrapping.SameViewIff` | contentstream/contentstream.go:51-77 | the handlers see the operations of newly wrapped content in exactly the states in which they saw them unwrapped, between the added q and Qs, if and only if no prefix has more Q than q |
| `Wrapping.WrapRestoresIff` | contentstream/contentstream.go:51-77 | whatever the operators do and from every state, the wrapped list gives that state and an empty stack back, if and only if the list is wrapped without a Q too many, or has at most one Q too many and no operator behind it, or ends with more and is protected behind one q |
| `Wrapping.NotRestored` | contentstream/contentstream.go:51-77 | `Q cm` is wrapped as `q Q cm`, which leaves the change of cm behind |
| `Wrapping.WrapRestores` | contentstream/contentstream.go:51-77 | on top of any stack, lists of the first two kinds give the state and the stack back, for states of any type |
| `Wrapping.WrapRestoresAnywhereIff` | contentstream/contentstream.go:51-77 | and no other lists do |
| `Wrapping.NoUnderflowRestorable` | contentstream/contentstream.go:51-77 | in particular lists where no prefix has more Q than q are of those kinds |
| `GraphicsState.RestoresIff` | contentstream/processor.go:217-289 | a list restores every state, whatever the operators do, if and only if no operator stands outside q and Q and nothing is left saved |
| `Wrapping.AddedRunsAlone` | creator/block.go:196-202 | content added behind a restorable list is seen, and ends, as it would alone |
| `Wrapping.AddedRunsAloneIff` | creator/block.go:196-202 | all content added behind a list runs as it would alone if and only if the list is restorable |
| `Wrapping.IdempotentIff` | contentstream/contentstream.go:26-77 | wrapping twice is wrapping once if and only if the list is empty, was wrapped, or has at most one Q too many and no operator behind a Q without a q |
| `Wrapping.Idempotent` | contentstream/contentstream.go:26-77 | in particular where no prefix has more Q than q |
| `GraphicsState.Frame` | contentstream/processor.go:217-289 | operations that never reach the states saved below them run the same on any of them |
| `GraphicsState.ContentStreamProcessor.Process` | contentstream/processor.go:217-289 | the loop with its stack computes the run up to the first error of an operator or a handler, and calls the handlers with its events, which `GraphicsState.OneMore` gives one operation at a time |
| `GraphicsState.OneMore` | contentstream/processor.go:217-289 | on every run: `q` saves the state and is seen with it, `Q` on an empty stack is passed over, any other `Q` is seen with the state it brings back, and other operators are seen with the state they lead to, or stop the run |
| `GraphicsState.MatchingQ` | contentstream/processor.go:217-289 | a `Q` is seen with the state in which its `q` was, and leaves that state and what was saved before it |
| `GraphicsState.RunUntilIs` | contentstream/processor.go:217-289 | handlers that report no error are called with all events of the run, and others with those up to the call that reports one, at which the run fails |
| `GraphicsState.ContentStreamOperations.IsWrappedLoop` | contentstream/contentstream.go:26-47 | the depth loop decides whether all operators are inside q and Q |
| `GraphicsState.ContentStreamOperations.WrapIfNeeded` | contentstream/contentstream.go:51-77 | the list is bracketed in place |
| `GraphicsState.AddContents` | creator/block.go:196-202 | both contents are wrapped where they stand and joined |
| `MergeKept.MergeLinks` | creator/block.go:391-596 | when every used name is bound in the added resources, all names of the page keep their objects, and every operation that is added finds in the page the object it found before, with nothing else in it changed; on a page whose nil images, if any, have the empty name, the merge panics if and only if that name has one and is used |
| `MergeOperators.Linked` | creator/block.go:391-596 | operator by operator, as literals: when all used names are bound, an operation `Do`, `Tf`, `CS`, `cs`, `SCN`, `scn`, `sh` or `gs` that is added has a name that is bound in the page to the object its name was bound to, and is otherwise unchanged |
| `MergeOperators.OtherIsKept` | creator/block.go:391-596 | any other operator or number of parameters goes in as it is |
| `MergeOperators.UsedIsNaming` | creator/block.go:391-596 | what an operation uses, it names by one of these operators |
| `MergeOperators.UsableIff` | creator/block.go:391-596 | a name stands for an object if it is bound to it, and for an XObject, pattern or shading if that can be loaded |
| `MergeOperators.NamesTried` | creator/block.go:412-596 | the names that are tried: the own one, then `GS` and a number, or the name with zeros |
| `MergeOperators.FontNamesTried` | creator/block.go:620-642 | for a font, its name with other digits at the end |
| `MergeOperators.FontPrefixIs` | creator/block.go:620-642 | or `Font` and a number if it has digits only |
| `MergeOperators.KeepsNameIff` | creator/block.go:391-596 | a name is kept if and only if the page has nothing under it, or the same object and its kind is not pattern or shading |
| `MergeKept.MergeKeeps` | creator/block.go:391-596 | all names of the page keep their objects if every name used by an operation that is added is bound in the added resources or would overwrite nothing that the page binds |
| `MergeKept.KeptThroughoutIff` | creator/block.go:391-596 | they keep them after every prefix of the operations, a panic included, if and only if that is so |
| `MergeKept.MergeKeepsIff` | creator/block.go:391-596 | where page and added resources share no object, they keep them at the end if and only if that is so |
| `MergeKept.FirstHarm` | creator/block.go:412-596 | the first operation for which it is not so takes a binding from the page |
| `MergeKept.PageLosesFont` | creator/block.go:441-461 | a page font is lost to an added Tf with its name and no font |
| `MergeKept.FontBoundAgain` | creator/block.go:441-461 | where objects are shared, a lost binding may come back by a later operation |
| `MergeKept.SurvivesIff` | creator/block.go:391-596 | for every kind of resource: an operation with a bound name that is added finds in the page the object it found before, if and only if the name given at the first use was not taken away by an unbound name behind it, or was given again to the same object behind that |
| `MergeKept.BoundSurvives` | creator/block.go:391-596 | in particular if no unbound name overwrites one of the names tried for it |
| `MergeKept.FontTaken` | creator/block.go:441-461 | a font that is given the name F1 is lost to a later Tf of F1 without a font |
| `MergeKept.EmptyNameSurvivesIff` | creator/block.go:412-596 | an XObject or graphics state with the empty name is lost to the operations that are added if and only if it keeps that name at its first use and an unbound name of its kind is met for the first time behind it |
| `MergeKept.UnboundTakesImage` | creator/block.go:414-440 | `Do` with the empty name loses its image to a later `Do` whose name is not bound, without a panic |
| `MergePanics.HitsNilIff` | creator/block.go:414-440 | for all resources and operations, the merge panics if and only if an XObject name, when first met, has a nil image in the added resources, or the first name tried for it that is not taken by another object has one in the page |
| `MergePanics.PanicsIff` | model/resources.go:368-407 | on a page whose nil images, if any, have the empty name: if and only if a used name has a nil image in the added resources, or the empty name is bound there and at its first use the page has a nil image under it, from the start or from an unbound `Do` before |
| `MergePanics.PanicsWithoutNilIff` | creator/block.go:414-440 | without nil images at the start: if and only if the empty name is bound in the added resources and an unbound `Do` comes before its first use |
| `MergePanics.OnlyNoNameStays` | creator/block.go:414-440 | merging leaves no nil image under another name |
| `MergePanics.NilAfter` | model/resources.go:410-424 | the nil images of the page are those it had, and one under the empty name once an unbound `Do` is met |
| `MergePanics.MissingThenNoName` | creator/block.go:414-440 | a missing image and then one with the empty name panic |
| `MergePanics.NilPagePanics` | model/resources.go:368-407 | on a page with a nil image under the empty name every use of that name panics, although it is bound |
| `MergePanics.MergeAgainPanics` | creator/block.go:301-376 | after a merge that met an unbound `Do`, merging its operations with its resources into any page panics |
| `Merge.ChoiceExists` | creator/block.go:620-642 | for every finite table the search for a free name ends |
| `Merge.ChooseName` | creator/block.go:620-642 | the loops find the first name that is free or has the same object, or panic at a nil image |
| `Merge.MergeContents` | creator/block.go:391-596 | the loop registers the names, overwrites the operations' parameters in place and puts the same operation objects behind the page's, up to a panic if there is one; an object that stands in the list twice is met again as it was left; which names are rewritten is said by `MergeOperators.Linked` and `MergeOperators.OtherIsKept` |
| `Merge.DistinctObjects` | creator/block.go:391-596 | a list of distinct objects is merged as the operations that they hold |
| `Merge.OutcomeIs` | creator/block.go:391-596 | what is merged, and the table that is left, are those of the operations in front of the first that panics |
| `Merge.MergeOpsAt` | creator/block.go:391-596 | each operation is renamed by the names known once its own is registered |
| `Xref.EarliestOfGreatest` | core/parser.go:1189-1325 | for every file, cyclic Prev links included, loading ends and an object number is bound to a location if and only if that is the earliest claim of the greatest generation among the main section, its xref stream and every section along the Prev links, each taken once; `XrefRows.BoundByEntry` says the same of the rows |
| `XrefRows.BoundByEntry` | core/parser.go:1189-1325 | for every file, a number is bound to a location if and only if a row says so, no row met before it has as great a generation for the number and none behind it a greater one |
| `XrefRows.ClaimedSays` | core/parser.go:1035-1076 | a row says so if and only if it is a line in use with an offset above 1, or of kind 1 with its offset and generation, for its own number or that of the stream if the offset is the stream's own, or of kind 2 with its stream and index |
| `XrefRows.GenerationIs` | core/parser.go:1049-1064 | an object in an object stream counts as generation 0 |
| `XrefRows.BoundIsRead` | core/parser.go:1189-1325 | every binding is that of a row in a section that is read, and every row of a section that is read leaves its number bound with at least its generation |
| `XrefRows.EntriesAreRead` | core/parser.go:1245-1325 | the rows met are those of the main section, its xref stream and the sections along the Prev links |
| `XrefRows.ReadAreEntries` | core/parser.go:1245-1325 | and all of these are met, through cycles too |
| `XrefRows.EndsIff` | core/parser.go:1189-1325 | for every file, loading fails if and only if the main section or its xref stream cannot be read, and panics if and only if a Prev link along the way is no integer |
| `Xref.SameAsOnce` | core/parser.go:1289-1322 | the loop, whose list misses the first offsets and so may read sections twice, ends as a loop that reads each section once |
| `Xref.BoundIff` | core/parser.go:771-777 | loading claims in order binds a number to the earliest claim of the greatest generation |
| `Xref.LoadSettled` | core/parser.go:1049-1064 | loading claims that have been considered changes nothing |
| `Xref.Parser.ParseRows` | core/parser.go:1035-1076 | the loops over table lines and stream rows load their claims, which are those of `XrefRows.ClaimedSays` |
| `Xref.Parser.LoadAll` | core/parser.go:1245-1325 | the loop over Prev computes the outcome of the specification, with its errors and its failed type assertion |
| `XrefNext.Finder.NextObjectOffset` | core/parser.go:1329-1371 | the result is the least positive offset from the argument on, in the table the sorted list was made from, and in the current table as long as that is the same |
| `XrefNext.NextIsUnique` | core/parser.go:1329-1371 | there is only one such offset, so a linear scan gives the same |
| `XrefNext.OffsetsAre` | core/parser.go:1329-1371 | the offsets searched are the positive ones of the objects in the file |
| `XrefNext.Search` | core/parser.go:1363-1368 | binary search finds the first element that is not less |
| `Repair.RepairedIff` | core/repairs.go:101-187 | for every file, the scan fails if and only if some header in it has a NUL in its white space; otherwise a number is bound to a position and generation if and only if a header of the file with these numbers stands there, no header for the number has a greater generation, and those that end before it have smaller ones |
| `Repair.TracksFinds` | core/repairs.go:114-184 | whatever bytes failed matches have kept out of the window, at every j the window shows what the file shows |
| `Repair.HeaderIsFound` | core/repairs.go:128-172 | a header of at most 19 bytes with no digit in front of it is found, with its numbers, at the position of its first digit |
| `Repair.FoundIff` | core/repairs.go:128-172 | something is found at a j if and only if a header ends there |
| `Repair.LookBack` | core/repairs.go:131-160 | the loops back over the window decide whether it ends in a header |
| `Repair.Parser.RebuildXrefsTopDown` | core/repairs.go:101-187 | the loop over the file computes the table of the headers, once only |
| `CryptPlaces.EachObject` | core/crypt.go:615-955 | encryption and decryption of any object graph: the objects at the end of a trail of pointers become what `WalkedAt` and `StreamWalked` say, part by part, and no other is touched |
| `CryptPlaces.WalkedAt` | core/crypt.go:888-955 | at every path into every direct object: a string that is not under Parent, Prev, Last or the Contents of a signature becomes its cipher text for its place under the string filter, or stays if that is Identity; everything else is as it was |
| `CryptPlaces.StreamWalked` | core/crypt.go:634-702 | the data of a stream that is not left alone becomes its cipher text under its filter, its dictionary is walked at every path but Length, and Length is that of the new data |
| `CryptPlaces.ReachIff` | core/crypt.go:615-955 | an object is reached if and only if a trail of pointers, at open paths of objects that are walked, leads to it |
| `CryptPlaces.StreamFilterIs` | core/crypt.go:652-676 | the filter of a stream: the standard one below V 4, the one its decode parameters name if it starts with Crypt, and otherwise that of the settings |
| `CryptPlaces.LeftAloneIff` | core/crypt.go:634-683 | a stream is left alone if and only if its filter is Identity from V 4 on, or it is an XRef stream that is not decrypted under revision 5 |
| `CryptPlaces.PassedOverIff` | core/crypt.go:561-597 | decryption passes over an object that is noted as decrypted, has the keys V, R, O, U and P, or is an XRef stream, unless under revision 5; encryption over none |
| `CryptRoundTrip.RoundTrip` | core/crypt.go:615-955 | with inverse ciphers, decryption after encryption gives back every direct object, and everything reachable from it as it was but for a correct Length, and touches nothing that is not reachable, unless an object is treated differently by the two sides |
| `CryptRoundTrip.NodeBack` | core/crypt.go:802-955 | each object that both sides treat alike comes back, with the same skips on both sides |
| `CryptRoundTrip.PassedOverStaysEncrypted` | core/crypt.go:561-597 | an object that looks like an encryption dictionary comes back exactly if encryption does not change it |
| `CryptRoundTrip.ComesBackIff` | core/crypt.go:561-772 | where no XRef stream is reached under revision 5, an object that was reached comes back if and only if it is reached without passing through an object that decryption passes over, or encryption leaves it as it was |
| `CryptRoundTrip.XrefDecryptedOnly` | core/crypt.go:639-643 | an XRef stream under revision 5 is decrypted without having been encrypted, and comes back only if its crypt filter is Identity or decryption does not change its data |
| `CryptRoundTrip.DecryptedWasEncrypted` | core/crypt.go:615-772 | decryption goes nowhere that encryption has not been |
| `Crypt.Traversal.Process` | core/crypt.go:615-955 | the recursive walk ends on every object graph and transforms every reachable object exactly once and no other, however objects are shared or form cycles; what becomes of each string and stream is said by `CryptPlaces.EachObject` |
| `Crypt.Traversal.Walk` | core/crypt.go:802-885 | one indirect object or stream: marked first, then its parts, then overwritten |
| `TextWrap.WrapKeepsInk` | creator/text_chunk.go:49-137 | no rune but white space is lost, doubled or moved, and every line feed stays |
| `TextWrap.KeepsIff` | creator/text_chunk.go:65 | what counts as white space is what Unicode lists |
| `TextWrap.WrapFits` | creator/text_chunk.go:49-137 | with glyph widths and a character spacing that are not negative, every line as it is drawn fits up to its last rune, and only lines without a blank can be too wide |
| `TextWrap.EndsLineIff` | creator/text_chunk.go:49-137 | on every text: a line is ended if and only if the next rune is a line feed or does not fit behind it, and otherwise grows by it |
| `TextWrap.FittingIsOneLine` | creator/text_chunk.go:49-137 | text without line feeds that fits is one line, as it is |
| `TextWrap.NoEmptyLastLine` | creator/text_chunk.go:132-136 | there is no empty line at the end |
| `TextWrap.WidthOfMore` | creator/text_chunk.go:71-86 | the width of a line: its glyphs, and the character spacing behind each that is no blank |
| `TextWrap.BreakLine` | creator/text_chunk.go:88-124 | a full line ends at its last blank if that is not its first rune, and the widths are kept in step |
| `TextWrap.Wrap` | creator/text_chunk.go:49-137 | the loop with its running widths computes the lines, or reports a missing glyph |
| `Pagination.PaginateKeeps` | creator/styled_paragraph.go:544-571 | the pages have all lines in order, and no page is too full |
| `Pagination.EndlessIff` | creator/styled_paragraph.go:544-571 | the page loop does not end if and only if a line that is not drawn on the first page is higher than a page |
| `Pagination.FittingIsMost` | creator/styled_paragraph.go:602-641 | as many lines are drawn as fit: one more would not |
| `Pagination.TotalAppend` | creator/styled_paragraph.go:602-641 | what lines take is the sum of their heights, each times the line height |
| `Pagination.MaxSizeIs` | creator/styled_paragraph.go:602-641 | the height of a line is that of its greatest chunk |
| `Pagination.LineTooHigh` | creator/styled_paragraph.go:544-571 | it does not end for a line of size 20 on pages of height 10 |
| `Pagination.DrawOnBlock` | creator/styled_paragraph.go:602-641 | the loop draws the longest prefix of lines that fits |
| `Pagination.GeneratePageBlocks` | creator/styled_paragraph.go:544-571 | the page loop computes the pages |
| `Intervals.SamePointsSameLength` | extractor/markdown.go:4067-4085 | the length depends on the points covered only: intervals may be reordered, repeated or split |
| `Intervals.UnionLenMeasures` | extractor/markdown.go:4067-4085 | the length is that of the covered cells of any grid with the intervals' ends |
| `Intervals.UnionMeasures` | extractor/markdown.go:4067-4085 | and so for whatever order of equal lower ends the sort produced |
| `Intervals.SameRulesSameBorder` | extractor/markdown.go:4053-4065 | the border test depends on the points that are ruled only |
| `Intervals.HasHBorderIff` | extractor/markdown.go:4053-4085 | there is a border if and only if the part of the stretch that is ruled, measured cell by cell of any grid with all ends, is more than 0.6 of it |
| `Intervals.SplitCovers` | extractor/markdown.go:4053-4085 | cutting a line into abutting pieces covers the same points |
| `Intervals.CutSameBorder` | extractor/markdown.go:4053-4065 | drawing a ruling line in two abutting pieces does not change the border test |
| `Intervals.SameLinesSameBorder` | extractor/markdown.go:4053-4065 | nor do reordering and repeating the lines |
| `Intervals.UnionLenLoop` | extractor/markdown.go:4067-4085 | the sweep over the sorted intervals computes the length |
| `Intervals.HasHBorderLoop` | extractor/markdown.go:4053-4065 | the loop clips the lines near y and compares the length |

## Left out

- Floating point numbers: reading and writing them is left to the Go library, trees with floats are outside `Valid`, and widths, heights and coordinates are real numbers.
- Inline images: reading stops at BI, because the end of the image data is guessed by looking ahead.
- ContentStream.ToBytes: lists with BI are not written, because their parameter is an inline image object.
- zlib, LZW code tables, JPEG, CCITT, JBIG2 and JPX are foreign formats; the predictors are modelled on the decompressed bytes.
- Object streams, the lookup of objects by number and the mutual recursion with rebuilding the table.
- Key derivation, passwords and permissions; the ciphers are given from outside, an encryption that depends on the place of the bytes standing for random start values.
- The unread input after an error: `Reader` says where the reader stands after a success only.
- Predictors.PostDecodePredict: does not model negative Columns or Colors, which index outside the buffer; the zero values are modelled.
- GraphicsState.ContentStreamProcessor.Process: one handler for all operators stands for all of them, and what the operators other than q and Q do is given from outside.
- Merge.MergeContents: the two resources are different objects; resource dictionaries that are indirect objects, where setting a pattern or shading fails, are not modelled; font name prefixes are cut at ASCII digits and blanks only.
- Xref.Parser.LoadAll: the text of sections is not parsed; which rows and links are read at each offset is given, and generation numbers are not negative.
- Crypt.Traversal.Process: cipher errors and unknown crypt filters, which stop the walk midway, are not modelled; direct objects are trees, so a string or array object held in two places is not modelled; references that are resolved through the file are leaves.
- Repair.Parser.RebuildXrefsTopDown: read errors other than the end of the file are not modelled.
- Pagination.GeneratePageBlocks: models relative positioning; drawing, fonts and alignment are left out.
- Colour spaces, fonts, text encoders, annotations, tables and the other drawing code only emit operators.
