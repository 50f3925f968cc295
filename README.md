# RAXIS and XSDataImage readers

This project models two image readers of FabIO, a library that reads the
image files of X-ray detectors, and proves properties of them.

**RAXIS** (`raxisimage`) reads Rigaku R-AXIS files. The first 1400 bytes
are a header block of 112 fields laid out back to back. The widths and
kinds are given by the `RKey` table, and the order by `orderList`. Each
field is a fixed-width byte string, a 4-byte float or a 4-byte signed
integer, read in the image's byte order (big-endian by default). The
last field, "Header Leftovers", takes whatever is left of the block. The
loop stops early where a field ends exactly at the end of the block.

The reader then looks up "X Pixels" and "Y Pixels". It reads the last
`2 * X * Y` bytes of the file as unsigned 16-bit pixels, byte-swapped when
the host's order differs, and reshapes them into Y rows of X columns.
The comments at the correction say that every pixel whose top bit is set
is re-read as a signed value and scaled by the "Photomultiplier Ratio".
The model's main read does that (see "## Findings" for what the code
itself does).

**XSDataImage** (`xsdimage`) reads an XML document. `_readheader` fills the
attributes from the texts of the `shape`, `size`, `dtype`, `coding`, `data`
and `md5sum` elements; the last element wins and bad integers are logged
and skipped. `read` then takes the first two dimensions and settles the
numpy element type. It checks that the size is the product of the
dimensions, decodes the payload (base64, base32 or base16, base64 for
anything else) and compares its md5 digest when one is given. Finally it
cuts the payload into elements, reshapes them and byte-swaps them in
place on a big-endian host.

The model's modules:

- `Bytes`: bytes, byte orders, unsigned and 32-bit two's-complement
  values, element cutting and byte swapping.
- `Results`: the `Option` and `Result` wrappers.
- `RaxisLayout`: the `RKey` kinds in `orderList` order, with field widths
  and offsets.
- `RaxisKeys`: the `orderList` names and the header dictionary.
- `RaxisHeader`: the `_readheader` loop, as a specification function and
  as a loop.
- `RaxisImage`: `swap_needed`, the pixel block, the reshape, the
  correction, and the `raxisimage` object.
- `IntText`: Python 2 `int()` on byte strings, and `str()`.
- `Base16`: `b16decode` and `b16encode`.
- `XsdDocument`: the XML document as a flat sequence of elements, and the
  `_readheader` loops.
- `XsdImage`: the decoding in `read`, the reshape, the in-place byte swap,
  and the `xsdimage` object.

Each reader's operations are given as pure specification functions
(`DecodeRaxis`, `DecodeXsd`). The loops and the objects that update their
attributes are methods and classes, and they are proved against those
functions.

Where the readers' written description and their code disagree, the model
follows the code, with one exception, the first item:

- The RAXIS pixel correction. `ReadPixels`, `CorrectAll`, `CorrectInPlace`,
  `DecodeRaxis` and `RaxisImage.Read` follow the intent stated in the
  comments at lines 183-190 of `raxisimage.py`. `AsWrittenCorrection` models
  the code as written, with the casting rules of numpy before 1.10: an
  in-place result is cast back to uint16 without a check, so the
  subtraction wraps back to the pixel and the scaled value is truncated.
  From numpy 1.10, `data[di] *= sf` raises a TypeError under same-kind
  casting for every file, even when no pixel is selected. With numpy 2,
  `data[di] -= 2**16` raises an OverflowError. Neither error is modelled.
- A RAXIS pixel block larger than the file is only logged. The read then
  fails in `fromstring` (an odd number of bytes) or at the reshape
  (`OversizeFails`).
- `xsdimage.read` empties `header` and never fills it.
- The nested `//value` queries for `coding` and `md5sum` are absolute, so
  both take the text of the last `value` element anywhere in the document
  (`CodingAndChecksumShareValue`).

## Model

| member | source | states |
|---|---|---|
| RaxisLayout.KindAt | fabio-src/raxisimage.py:195-313 | definition of the `RKey` table in `orderList` order: each field is a 'long', a 'float', a run of n raw bytes, or the final remainder; its layout is stated by `OffsetSpan`, `RemainderIsLast`, `ReaderKinds` and the `LayoutTo` lemmas |
| RaxisLayout.OffsetSpan | fabio-src/raxisimage.py:105-132 | the byte position of a field is the position of an earlier field plus the widths of the fields between them, as `curByte += rByte` accumulates |
| RaxisLayout.OffsetMonotone | fabio-src/raxisimage.py:105-132 | the cursor only moves forward along `orderList` |
| RaxisLayout.RemainderIsLast | fabio-src/raxisimage.py:310-310 | "Header Leftovers" (-1) is the last key; every field before it has a fixed positive width |
| RaxisLayout.ReaderKinds | fabio-src/raxisimage.py:242-250 | "X Pixels" and "Y Pixels" are `long` fields and "Photomultiplier Ratio" is a `float` field |
| RaxisLayout.LayoutTo44 | fabio-src/raxisimage.py:197-243 | "X Pixels" starts at byte 768 of the block |
| RaxisLayout.LayoutTo45 | fabio-src/raxisimage.py:197-243 | "Y Pixels" starts at byte 772 |
| RaxisLayout.LayoutTo52 | fabio-src/raxisimage.py:197-250 | "Photomultiplier Ratio" starts at byte 800 |
| RaxisLayout.LayoutTo111 | fabio-src/raxisimage.py:197-311 | "Header Leftovers" starts at byte 1160, so a 1400-byte block leaves it 240 bytes |
| RaxisKeys.Name | fabio-src/raxisimage.py:314-430 | definition of `orderList`: the 112 field names in reading order; stated by `XPixelsKey`, `YPixelsKey`, `RatioKey` and `KeysUpTo` |
| RaxisKeys.XPixelsKey | fabio-src/raxisimage.py:314-427 | "X Pixels" is `orderList[44]` and occurs nowhere else in `orderList` |
| RaxisKeys.YPixelsKey | fabio-src/raxisimage.py:314-427 | "Y Pixels" is `orderList[45]` and occurs only there |
| RaxisKeys.RatioKey | fabio-src/raxisimage.py:314-427 | "Photomultiplier Ratio" is `orderList[52]` and occurs only there |
| RaxisKeys.StoredOnce | fabio-src/raxisimage.py:112-130 | a dictionary filled key by key holds a key that occurs once exactly when it was stored, and then holds the value stored under it |
| RaxisKeys.KeysUpTo | fabio-src/raxisimage.py:314-427 | the first n keys are `orderList[0..n]` in order |
| RaxisKeys.ReaderEntries | fabio-src/raxisimage.py:160-184 | after k fields are decoded, "X Pixels", "Y Pixels" and "Photomultiplier Ratio" are present exactly when k passes their positions, and then hold fields 44, 45 and 52 |
| RaxisKeys.HeaderMapAppend | fabio-src/raxisimage.py:112-130 | decoding one more field adds its value under its own `orderList` name and changes nothing else |
| RaxisHeader.Walk | fabio-src/raxisimage.py:106-138 | definition of the `_readheader` loop from field i at byte `cur`: read the field, store it, advance, and stop after the remainder, at the end of the block, or with the field the block ends inside; stated by `WalkLaidOut`, `WalkExtends` and `WalkEnds` |
| RaxisHeader.DecodeHeader | fabio-src/raxisimage.py:74-138 | `_readheader` over the header block gives at most one value per field of `orderList`; when it succeeds and what it holds are stated by `DecodeSucceeds`, `DecodedValues` and `DecodeTruncated` |
| RaxisHeader.HeaderBlock | fabio-src/raxisimage.py:95-101 | `rawHead` is the first 1400 bytes of the file, or the whole file when it is shorter |
| RaxisHeader.ReadField | fabio-src/raxisimage.py:107-132 | one field fails (a `struct.error`) exactly when it is not the remainder and its bytes run past the block; otherwise the cursor advances by its width, or to the end of the block for the remainder |
| RaxisHeader.WalkStep | fabio-src/raxisimage.py:106-138 | unfolding helper, restating `Walk` one step: one turn of the loop: a short field fails, the remainder stops the loop complete, and a field ending at the block's end stops it complete |
| RaxisHeader.ReadFields | fabio-src/raxisimage.py:104-138 | the field loop ends with the values `DecodeHeader` gives, or with its error naming the field the block ends inside |
| RaxisHeader.Int32FieldAt | fabio-src/raxisimage.py:127-132 | a `long` field holds the signed 4-byte integer at its offset in the image's byte order |
| RaxisHeader.Float32FieldAt | fabio-src/raxisimage.py:121-126 | a `float` field holds the 4 bytes at its offset, most significant first |
| RaxisHeader.FixedBytesFieldAt | fabio-src/raxisimage.py:117-120 | a fixed-width field holds its bytes at its offset as they are, untrimmed and in any byte order |
| RaxisHeader.RemainderFieldAt | fabio-src/raxisimage.py:110-115 | the remainder field holds the rest of the block from its offset |
| RaxisHeader.AppendLaidOut | fabio-src/raxisimage.py:105-132 | the values stay those read at their layout offsets as the loop appends one |
| RaxisHeader.ReadAtOffset | fabio-src/raxisimage.py:107-132 | a field read at its layout offset fails exactly when the block ends inside it |
| RaxisHeader.StopEndsRight | fabio-src/raxisimage.py:110-115 | a loop that stops at the remainder, or at the block's end, or after the last key ends complete |
| RaxisHeader.WalkLaidOut | fabio-src/raxisimage.py:105-138 | every value the loop decodes is the field read at its layout offset |
| RaxisHeader.WalkExtends | fabio-src/raxisimage.py:105-138 | the loop keeps the values already decoded and adds at most one per key |
| RaxisHeader.WalkEnds | fabio-src/raxisimage.py:105-138 | the loop ends complete at the remainder or at the block's end, or fails at the first field the block ends inside |
| RaxisHeader.DecodeSucceeds | fabio-src/raxisimage.py:105-138 | the header decodes exactly when the block reaches past the start of "Header Leftovers" or ends exactly where some field ends |
| RaxisHeader.DecodedValues | fabio-src/raxisimage.py:105-138 | a decoded header holds the first fields in layout order: all 112 when the block reaches the remainder, otherwise those that end at or before the block's end |
| RaxisHeader.DecodeTruncated | fabio-src/raxisimage.py:118-131 | a failing header fails at the field inside which the block ends |
| RaxisHeader.FullBlock | fabio-src/raxisimage.py:95-138 | a 1400-byte block decodes to all 112 fields, with the pixel counts at bytes 768 and 772, the ratio at byte 800 and a 240-byte remainder |
| RaxisImage.OrderOf | fabio-src/raxisimage.py:94-94 | the byte order a `struct` prefix selects, which gives the prefix back |
| RaxisImage.SwapNeeded | fabio-src/raxisimage.py:64-71 | a swap is needed exactly when the file's order differs from the host's; for a prefix other than '<' and '>' the method returns None |
| RaxisImage.PixelBlock | fabio-src/raxisimage.py:163-177 | the block read is the tail of the file: `size` bytes, the whole file when `size` exceeds it, nothing when `size` is 0 |
| RaxisImage.NativeValues | fabio-src/raxisimage.py:179-181 | `fromstring` reads each 2-byte element as an unsigned value in host order |
| RaxisImage.PixelValues | fabio-src/raxisimage.py:177-181 | the block gives one pixel per 2 bytes |
| RaxisImage.PixelsInFileOrder | fabio-src/raxisimage.py:177-181 | on either host, after the conditional byte swap, pixel i is the unsigned 16-bit value of bytes 2i and 2i+1 in the file's byte order |
| RaxisImage.Corrected | fabio-src/raxisimage.py:183-191 | definition of the correction the comments describe: a pixel with the top bit set is read as signed and multiplied by the ratio, any other is kept; stated by `CorrectionInvertible` |
| RaxisImage.CorrectionInvertible | fabio-src/raxisimage.py:183-191 | with a positive ratio the correction makes negative exactly the pixels with the top bit set, leaves the others, and can be undone |
| RaxisImage.CorrectAll | fabio-src/raxisimage.py:187-191 | every pixel is corrected, each in its place |
| RaxisImage.StoreUint16 | fabio-src/raxisimage.py:189-191 | a value stored into a uint16 array is kept modulo 2^16 |
| RaxisImage.AsWrittenLosesSign | fabio-src/raxisimage.py:187-191 | as written (numpy before 1.10), the subtraction stored into the uint16 array is lost, so a pixel with the top bit set is scaled as it was and never turns negative |
| RaxisImage.AsWrittenCorrection | fabio-src/raxisimage.py:186-191 | the code as written (numpy before 1.10): every pixel stays a uint16 value; what it becomes is stated by `AsWrittenLosesSign` |
| RaxisImage.Reshape | fabio-src/raxisimage.py:179-181 | numpy's `reshape` to (Y, X): non-negative counts are accepted exactly when they multiply to the element count; one negative count, whatever its value, is the unknown one and is accepted exactly when the other is not zero and divides the element count, giving the quotient; two negative counts are refused |
| RaxisImage.RawRaster | fabio-src/raxisimage.py:164-181 | the pixels before correction form a well-formed grid of Y rows of X columns |
| RaxisImage.ReadPixels | fabio-src/raxisimage.py:164-192 | the kept grid is well formed; the ratio is looked up only after the reshape |
| RaxisImage.DecodeFromHeader | fabio-src/raxisimage.py:160-193 | the image keeps the decoded header and gives a well-formed grid |
| RaxisImage.DecodeRaxis | fabio-src/raxisimage.py:140-193 | reading a file gives a well-formed grid or the first error the reader meets |
| RaxisImage.DecodedField | fabio-src/raxisimage.py:105-138 | a field other than the remainder is decoded exactly when the block reaches its end, and holds its layout value |
| RaxisImage.XPixelsField | fabio-src/raxisimage.py:160-160 | "X Pixels" is in the header exactly when the block reaches byte 772, and is then the integer at byte 768 |
| RaxisImage.YPixelsField | fabio-src/raxisimage.py:161-161 | "Y Pixels" is in the header exactly when the block reaches byte 776, and is then the integer at byte 772 |
| RaxisImage.RatioField | fabio-src/raxisimage.py:184-184 | "Photomultiplier Ratio" is in the header exactly when the block reaches byte 804, and is then the float at byte 800 |
| RaxisImage.FullHeader | fabio-src/raxisimage.py:95-138 | a file of at least 1400 bytes has a header holding the pixel counts at bytes 768 and 772 and the ratio at byte 800 |
| RaxisImage.TailRaster | fabio-src/raxisimage.py:164-191 | non-negative counts whose pixels fit in the file give Y rows of X columns, pixel k being the corrected 2-byte value at byte 2k of the file's last 2XY bytes |
| RaxisImage.TailBlockRaster | fabio-src/raxisimage.py:164-181 | such counts read the raster from the last 2XY bytes of the file |
| RaxisImage.TailPixels | fabio-src/raxisimage.py:177-191 | a block of 2n bytes gives n pixels, pixel k being the corrected 2-byte value at byte 2k in the file's byte order |
| RaxisImage.OversizeFails | fabio-src/raxisimage.py:171-181 | non-negative counts asking for more bytes than the file holds are only logged at the seek; the whole file is then read, and the read fails in `fromstring` when the file has an odd number of bytes, or else at the reshape |
| RaxisImage.DecodeWithDims | fabio-src/raxisimage.py:160-193 | once the header gives the pixel counts, the file decodes as its pixels do |
| RaxisImage.FullFile | fabio-src/raxisimage.py:140-193 | a 1400-byte-or-longer file with non-negative counts that fit reads as Y rows of X corrected pixels taken from the tail, scaled by the float at byte 800 |
| RaxisImage.AtCorrected | fabio-src/raxisimage.py:187-191 | correcting the grid corrects each cell where it lies |
| RaxisImage.LoadRaster | fabio-src/raxisimage.py:163-181 | the pixels are read into a fresh 2-D array whose cells are the raw raster's, or the error `RawRaster` gives |
| RaxisImage.LoadImage | fabio-src/raxisimage.py:163-192 | the array is corrected in place to the grid `ReadPixels` gives, or gives its error |
| RaxisImage.CorrectInPlace | fabio-src/raxisimage.py:187-191 | every cell of the array is replaced by its corrected value |
| RaxisImage.RaxisImage.constructor | fabio-src/raxisimage.py:51-62 | a new object has an empty header, zero dimensions, no data, uint16 elements and big-endian order |
| RaxisImage.RaxisImage.ReadHeader | fabio-src/raxisimage.py:74-138 | `header` becomes the dictionary of the fields the loop decoded, and the error is `DecodeHeader`'s; the other attributes are unchanged |
| RaxisImage.RaxisImage.ReadData | fabio-src/raxisimage.py:160-193 | the object ends up holding the image `DecodeFromHeader` gives, or keeps its data and gives that error; either way `dim1` is set once "X Pixels" is found, and `dim2` and the uint16 element type once "Y Pixels" is found too |
| RaxisImage.RaxisImage.Read | fabio-src/raxisimage.py:140-193 | the object ends up holding the image `DecodeRaxis` gives, or keeps its data and gives that error; either way `header` holds the fields decoded before the block ended, the counts and element type are kept when the header is cut short, and otherwise set as `ReadData` sets them |
| Bytes.ReverseInvolution | fabio-src/raxisimage.py:178-181 | swapping the bytes of a value twice gives them back |
| Bytes.UnsignedRoundTrip | fabio-src/raxisimage.py:177-181 | the bytes of an unsigned value read back as that value in the same order |
| Bytes.UnsignedBytesOfValue | fabio-src/raxisimage.py:177-181 | the value of some bytes, written back in the same order, gives the bytes |
| Bytes.SwapOppositeOrder | fabio-src/raxisimage.py:178-181 | reversed bytes read in the opposite order give the same value, which is why the swap makes host order agree with file order |
| Bytes.Int32Value | fabio-src/raxisimage.py:130-131 | `struct.unpack` with `l` gives a signed 32-bit integer |
| Bytes.Int32RoundTrip | fabio-src/raxisimage.py:130-131 | a 32-bit integer written in an order reads back as itself |
| Bytes.Int32BytesOfValue | fabio-src/raxisimage.py:130-131 | four bytes read as a 32-bit integer and written back give the bytes |
| Bytes.ByteSwapped | fabio/xsdimage.py:79-80 | `byteswap`: every element keeps its place and has its bytes reversed |
| Bytes.ByteSwappedTwice | fabio/xsdimage.py:79-80 | byte swapping every element twice gives back the elements |
| Bytes.Chunks | fabio/xsdimage.py:78-78 | `fromstring` cuts a payload into as many elements as it holds whole runs of `width` bytes; which bytes each holds is stated by `ChunksAt` |
| Bytes.ChunksAt | fabio/xsdimage.py:78-78 | `fromstring` makes element i from the i-th run of `width` bytes |
| IntText.ParseInt | fabio/xsdimage.py:96-101 | definition of Python 2's `int()` on a text: optional whitespace around an optional sign and decimal digits; stated by `ParseShow`, `ParseAroundSpace`, `SkippedAreSpaces`, `TrimmedAreSpaces` and `ParseRefuses` |
| IntText.ShowNatValue | fabio/xsdimage.py:96-101 | the digits of a natural number have that value |
| IntText.ParseShow | fabio/xsdimage.py:96-101 | `int(str(n)) == n` for every integer |
| IntText.ParseAroundSpace | fabio/xsdimage.py:96-101 | whitespace around a run of digits does not change what `int()` reads |
| IntText.SkippedAreSpaces | fabio/xsdimage.py:96-101 | leading whitespace skipping drops only whitespace and keeps a suffix |
| IntText.TrimmedAreSpaces | fabio/xsdimage.py:96-101 | trailing whitespace trimming drops only whitespace and keeps a prefix |
| IntText.ParseRefuses | fabio/xsdimage.py:96-101 | `int()` refuses a text with a character that is neither whitespace, a sign nor a digit |
| Base16.Encode | fabio/xsdimage.py:69-70 | `b16encode` gives two digits per byte; stated with `Decode` by `DecodeEncode` and `EncodeDecode` |
| Base16.Decode | fabio/xsdimage.py:69-70 | `b16decode` gives one byte per two digits when it succeeds; what it accepts is stated by `DecodeAccepts` |
| Base16.HexValue | fabio/xsdimage.py:69-70 | an upper-case hexadecimal digit has a value below 16 that spells it back |
| Base16.EncodeByte | fabio/xsdimage.py:69-70 | a byte is two digits, the high one first |
| Base16.DecodeEncode | fabio/xsdimage.py:69-70 | `b16decode(b16encode(data)) == data` |
| Base16.EncodeDecode | fabio/xsdimage.py:69-70 | whatever `b16decode` accepts is the encoding of what it returns |
| Base16.DecodeAccepts | fabio/xsdimage.py:69-70 | `b16decode` accepts exactly the even-length texts of upper-case hexadecimal digits |
| XsdDocument.Select | fabio/xsdimage.py:94-117 | `xpath("//tag")` gives at most one text per element; how it grows with the document is stated by `SelectAppend` |
| XsdDocument.ScanShapes | fabio/xsdimage.py:94-98 | definition of the `shape` loop: append an integer text, log any other, raise on a missing one; stated by `ShapesTextless`, `ShapesConcat`, `ShapeSingle`, `ShapesAllIntegers` and `ShapesAccounted` |
| XsdDocument.ScanSizes | fabio/xsdimage.py:99-103 | definition of the `size` loop: an integer text replaces the size, anything else is logged; stated by `LastOneWins` and `SizeReadBack` |
| XsdDocument.Anchored | fabio/xsdimage.py:107-117 | definition of the nested `coding` and `md5sum` loops with the absolute `//value`; stated by `CodingAndChecksumShareValue` and `AnchoredLast` |
| XsdDocument.ReadDocument | fabio/xsdimage.py:86-117 | `_readheader` fails exactly when some selected `shape` element has no text (`int(None)` raises a TypeError the loop does not catch), and then with that error; the field values are stated by `LastOneWins`, `SizeReadBack` and `CodingAndChecksumShareValue` |
| XsdDocument.ShapesTextless | fabio/xsdimage.py:94-98 | the shape loop raises exactly when some selected `shape` has no text |
| XsdDocument.ShapesAccounted | fabio/xsdimage.py:94-98 | without a missing text, every shape text is either appended to `dims` or logged (which, and in what order, is stated by `ShapesConcat` and `ShapeSingle`) |
| XsdDocument.ShapesAllIntegers | fabio/xsdimage.py:94-98 | when every shape text is an integer, `dims` are their values in document order and nothing is logged |
| XsdDocument.ShapesConcat | fabio/xsdimage.py:94-98 | without a missing text, the loop over two runs of shape texts gives the dimensions and the warnings of the first run followed by those of the second |
| XsdDocument.ShapeSingle | fabio/xsdimage.py:94-98 | one shape text: an integer is appended to `dims`, any other text is logged with a warning naming it, and a missing text raises |
| XsdDocument.ShapesSkipText | fabio/xsdimage.py:94-98 | the shape texts "3", "x", "4" give `dims` [3, 4] and one warning, for "x" |
| XsdDocument.SelectAppend | fabio/xsdimage.py:94-117 | unfolding helper, restating `Select` on a last element: an element appended to the document joins the selection of its own tag only |
| XsdDocument.LastOneWins | fabio/xsdimage.py:99-113 | the last `dtype`, `data` or integer `size` element in the document sets the attribute |
| XsdDocument.SizeReadBack | fabio/xsdimage.py:99-103 | a size written as `str(n)` is read back as `n` |
| XsdDocument.CodingAndChecksumShareValue | fabio/xsdimage.py:107-117 | `coding` and `md5` are both the text of the last `value` element anywhere, once a `coding` (or `md5sum`) element exists |
| XsdDocument.TextlessPersists | fabio/xsdimage.py:94-98 | once a textless shape has stopped the loop, later shapes change nothing |
| XsdDocument.ReadShapes | fabio/xsdimage.py:93-98 | the shape loop gives the dimensions and warnings `ScanShapes` gives, and fails exactly when it does |
| XsdDocument.ReadSizes | fabio/xsdimage.py:99-103 | the size loop gives the size and warnings `ScanSizes` gives, starting from the size held before |
| XsdDocument.LastOf | fabio/xsdimage.py:104-113 | a loop assigning each selected text in turn keeps the last one |
| XsdDocument.AnchoredLast | fabio/xsdimage.py:107-117 | the nested loop gives None without an anchor element, otherwise the last `value` text |
| XsdDocument.ReadHeaderFields | fabio/xsdimage.py:86-117 | the header loops give the fields `ReadDocument` gives, and on failure the dimensions and warnings gathered up to the textless shape |
| XsdImage.Resolve | fabio/xsdimage.py:51-57 | definition of the element type `read` settles on, with `bpp` and the warning; stated case by case by `ResolveCases` |
| XsdImage.ResolveCases | fabio/xsdimage.py:51-57 | unfolding helper, restating `Resolve` case by case: with no dtype the type is float64; a known dtype gives its type and width; an unknown one gives int32 with `bpp` 32 and a warning |
| XsdImage.CodingOf | fabio/xsdimage.py:64-73 | base32 and base16 are chosen exactly for those codings, base64 otherwise |
| XsdImage.CodingWarnings | fabio/xsdimage.py:64-73 | a warning is logged exactly when the coding is not base64, base32 or base16 |
| XsdImage.Payload | fabio/xsdimage.py:64-73 | definition of the decoding: no payload text or a text the chosen decoder refuses gives nothing; stated by `UnknownCodingIsBase64`, `DecodeAccepts` and `Base16RoundTrip` |
| XsdImage.UnknownCodingIsBase64 | fabio/xsdimage.py:71-73 | an unrecognised coding decodes exactly as base64 does |
| XsdImage.ProductConcat | fabio/xsdimage.py:59-61 | the product of joined dimensions is the product of the products |
| XsdImage.ProductNonNegative | fabio/xsdimage.py:59-61 | non-negative dimensions have a non-negative product |
| XsdImage.Reshape | fabio/xsdimage.py:78-78 | a reshape keeps the given dimensions and fills them with exactly the element count; non-negative dimensions are accepted exactly when their product is the count |
| XsdImage.Infer | fabio/xsdimage.py:78-78 | the one negative dimension, whatever its value, is inferred so that the product is the element count, the others kept |
| XsdImage.HostEndianness | fabio/xsdimage.py:78-80 | a big-endian host reads an image exactly when a little-endian one does, with every element's bytes reversed |
| XsdImage.DecodePayload | fabio/xsdimage.py:59-80 | definition of `read` from the size check on: size, decoding, checksum, element cut, reshape and host order, each failing with its own error; stated by `DecodeAccepts`, `DecodesTo` and `HostEndianness` |
| XsdImage.DecodeFields | fabio/xsdimage.py:47-80 | definition of `read` after the header: the dimension check, the element type, then `DecodePayload`; stated by `DecodeAccepts`, `DecodesTo`, `GridWarnings` and `HostEndianness` |
| XsdImage.DecodeXsd | fabio/xsdimage.py:38-80 | definition of `read` over a whole document: `_readheader`, then `DecodeFields`, returning the first error; stated through `XsdImage.XsdImage.Read` and `Base16RoundTrip` |
| XsdImage.DecodeAccepts | fabio/xsdimage.py:47-80 | `read` gives an image exactly when there are two dimensions, the size is their product, the payload decodes, its md5 (when given) matches, and it is a whole number of elements filling the dimensions |
| XsdImage.ReshapeKeeps | fabio/xsdimage.py:78-78 | non-negative dimensions whose product is the count are kept as they are |
| XsdImage.DecodesTo | fabio/xsdimage.py:47-80 | fields that pass every check decode to the payload's elements in host order, shaped by the dimensions, without warnings |
| XsdImage.Base16RoundTrip | fabio/xsdimage.py:47-80 | an int32 image written in base16 with its size, and optionally its md5, reads back as its elements in rows and columns with no warning |
| XsdImage.ReshapeOneUnknown | fabio/xsdimage.py:78-78 | two negative dimensions are refused |
| XsdImage.ReshapeInfers | fabio/xsdimage.py:78-78 | with one negative dimension, whatever its value, the reshape succeeds exactly when the product of the others is not zero and divides the count, and that dimension becomes the quotient |
| XsdImage.GridWarnings | fabio/xsdimage.py:51-73 | a read image carries exactly the element-type and coding warnings logged after the header |
| XsdImage.ExpectedSize | fabio/xsdimage.py:59-61 | the `exp_size` loop computes the product of the dimensions |
| XsdImage.FromBytes | fabio/xsdimage.py:78-78 | `fromstring` makes a fresh array of the payload's elements in order |
| XsdImage.SwapInPlace | fabio/xsdimage.py:79-80 | `byteswap(inplace=True)` reverses every element's bytes where it lies |
| XsdImage.LoadPayload | fabio/xsdimage.py:59-80 | the payload is decoded, checked, cut into a fresh array and swapped in place as `DecodePayload` says, logging the coding warning |
| XsdImage.XsdImage.constructor | fabio/xsdimage.py:24-36 | a new image has no dimensions, no coding, an empty header, no data and no warnings |
| XsdImage.XsdImage.ReadHeader | fabio/xsdimage.py:86-117 | the attributes become what `ReadDocument` gives; on failure only `dims` and the warnings logged so far change |
| XsdImage.XsdImage.ReadData | fabio/xsdimage.py:47-80 | `dim1`, `dim2`, the element type, `bpp`, the shape and the data become what `DecodeFields` gives, and each warning is logged in turn; the attributes read are unchanged |
| XsdImage.XsdImage.Read | fabio/xsdimage.py:38-84 | the header is emptied and the object ends up as `DecodeXsd` says, with every warning logged; when a `shape` has no text only `dims` and the shape warnings change, and when a later check fails the fields, `dim1`, `dim2`, the element type, `bpp` and the warnings stay as the steps before it set them |

## Left out

- File I/O, `_open`, compressed files and the file name are left out; the readers take the file's bytes (RAXIS) or its parsed elements (XSDataImage).
- XML parsing is left out; a document is its elements in document order, each a tag and an optional text.
- The host's byte order is the parameter `hostLittle` instead of `numpy.little_endian`.
- IEEE floats are left out: a `float` header field is kept as its 4 bytes; `floatOf` turns them into the ratio, and pixels are reals.
- `struct` prefixes other than '<' and '>' are left out; `SwapNeeded` returns None for them, where `swap_needed` falls through to None.
- `header_keys` and the `orderList` copy are left out; they do not affect the image read.
- The warning branch for an unknown `RKey` type is left out: every `RKey` value is an integer, 'float' or 'long', so it cannot be reached (it also names an undefined `Rkey`).
- RaxisKeys: that the 112 names are distinct is proved only for the three keys the reader looks up.
- RaxisImage.RaxisImage.ReadHeader: the dictionary is built from the decoded values after the loop, not one entry per turn; `HeaderMapAppend` states that the two agree.
- RaxisImage.TailRaster: the pixel count is an extra argument equal to `y * x`, to keep the arithmetic linear for the prover.
- `resetvals`, `pilimage`, the statistics attributes and the base class are left out; `fabioimage.py` is not part of this model.
- XsdImage.XsdImage.ReadHeader: the size held before the header is read is whatever the object held (`fields.size`); the base class's initial value is not modelled.
- The `xsdimage` constructor's `data` and `header` arguments and its call of `read(fname)` are left out. The model's constructor is `__init__` with its default arguments: no data and an empty header. `Read` is the same call as `read`.
- Logging is left out for RAXIS; for XSDataImage the warnings are kept, in order, as a list.
- `assert` statements are taken as checks that raise, as they do without `python -O`.
- `int()` is modelled on ASCII text: Unicode digits and whitespace are left out.
- Base64, base32, md5 and numpy's dtype table are parameters (`Library`); only base16 is modelled.
- numpy's `reshape`: the overflow check on the product of the known dimensions is left out, since integers are unbounded here.
- RaxisImage.ReadPixels: it applies the correction the comments describe, not the uint16 arithmetic of lines 187-191 (see "## Findings"); the errors numpy 1.10 and later raise at those lines are not modelled.
- XsdImage: the attributes `_readheader` sets are kept together in one `fields` record rather than as separate attributes, to keep the proofs of the object's methods small.
- XsdImage.ResolveCases: the fallback `bpp` of 32 is modelled as written, even though other element types get their width in bytes.

## Findings

| source | as written | input that shows it | evidently intended | confidence | as-written member | corrected member |
|---|---|---|---|---|---|---|
| fabio-src/raxisimage.py:187-191 | `data[di] -= 2**16` and `data[di] *= sf` store into the uint16 array; with numpy before 1.10 the subtraction wraps back to the pixel and the scaled value is truncated into uint16 | a pixel of 40000 with ratio 0.5 gives 20000 | the pixel read as a signed 16-bit value, then scaled: -12768 | not executed | RaxisImage.AsWrittenLosesSign | RaxisImage.CorrectionInvertible |
