# jspngopt's parser and optimizer in Dafny

jspngopt is a lossless PNG optimizer. This project models its two central
pieces.

- **The parser** (`src/Parser.js`) checks the PNG signature and walks the
  file chunk by chunk. Each chunk is a 4-byte big-endian length, a 4-byte
  type, the payload and a 4-byte CRC. The parser refuses truncated or
  oversized chunks. It validates IHDR and IEND, collects the IDAT payloads,
  requires IHDR first and IEND last, and inflates the joined IDAT stream.
- **The optimizer driver** (`src/Optimizer.js`) parses a buffer and
  compresses the refiltered image data under every parameter set. It keeps
  the first strictly smallest result. It then rebuilds the PNG: it copies
  every non-IDAT chunk, and at the first IDAT chunk it places the best data,
  split into IDAT chunks of at most `maxIdatLength` bytes.

Modules:

- `Bytes`: buffer helpers, the big-endian 32-bit field and `Buffer.concat`.
- `Png`: the chunk layout. It includes a reference splitter, `Frames`, that
  cuts a buffer into well-framed chunks without interpreting them.
- `Parser`: the handlers and the functions `Walk`/`ParseSpec` that specify
  `parse`. The class `PngParser` keeps the parser's fields (`chunks`, `idat`,
  `hdr`), and its `Parse` method is proved equal to `ParseSpec`.
- `ParserProperties`: a two-pass reading of `parse`: split with `Frames`,
  then apply the handlers. It states exactly which buffers are accepted and
  what is returned for them.
- `Optimizer`: the specification functions `Improve`, `Search`, `Split`,
  `Emit` and `Rebuild`. The class `PngOptimizer` holds the fields `img`,
  `minSize`, `bestData` and `bestParam`, and its methods are proved against
  those functions.
- `RebuildProperties`: the round trip. The rebuilt file splits back into the
  emitted chunks, and its IDAT payloads join to exactly the chosen
  compressed data.

Two details of the source shape the model:

- `parse` resets `chunks` and `idat` but not `hdr`. `ParseSpec` therefore
  takes the header left from an earlier call, and `ParseIgnoresStaleHeader`
  shows that the result never depends on it.
- `deflateSync(buf)` never passes the options that `compressSync` builds on
  to the compressor, although the parameter grid is meant to try each
  window size, level, memory level and strategy. The model keeps the code's
  behaviour: `OptionsIgnored` shows that two parameter sets with the same
  filter compress identically, so only the filter choice can change the
  result.

IHDR validation follows the code and not the PNG specification's rule
(section 11.2.2) that width and height are non-zero: the code never checks
them, so neither does `HandleIhdr`.

## Model

| member | source | states |
|---|---|---|
| Png.TypeOf | src/Parser.js:20 | the type of a chunk is its bytes 4..8 |
| Png.PayloadOf | src/Parser.js:90 | the payload is the chunk without its 8-byte head and 4-byte CRC, so it is 12 bytes shorter |
| Png.Frames | src/Parser.js:66-78 | a reference split of the buffer from `pos`; every chunk it returns has a length field below 2^31 that matches its size |
| Png.FramesTile | src/Parser.js:66-78 | the chunks of the split, joined, are exactly the bytes from `pos` on |
| Png.FramesOfFlatten | src/Parser.js:66-78 | conversely, joined well-framed chunks split back into exactly those chunks |
| Png.CompleteChunk | src/Optimizer.js:106 | the completed chunk keeps the buffer's size and payload, carries the given type, its length field holds the payload size, and its last four bytes hold the CRC of the type and payload |
| Parser.Datas | src/Parser.js:21 | one entry per chunk: the whole bytes recorded for it |
| Parser.ReadHeader | src/Parser.js:29-37 | the header's width and height are the big-endian fields at offsets 8 and 12 (re-encoding them gives those bytes back), and its five one-byte fields are bytes 16..21 in order |
| Parser.HandleIhdr | src/Parser.js:26-52 | accepts exactly a 25-byte chunk with a permitted colour type and bit depth and zero compression, filter and interlace methods; the accepted header is read from the fixed offsets; a wrong size, a bad bit depth and a bad colour type give their own errors, checked in that order |
| Parser.HandleIend | src/Parser.js:54-57 | IEND passes exactly when its payload is empty, and fails with the IEND length error otherwise |
| Parser.Check | src/Parser.js:10-17 | passes exactly when there are at least two chunks, the first is IHDR and the last IEND; fewer than two chunks gives that error first |
| Parser.StepKeepsHeader | src/Parser.js:19-29 | recording a chunk keeps a header once the first chunk is an accepted IHDR |
| Parser.WalkKeepsHeader | src/Parser.js:66-78 | the whole chunk loop keeps a header once the first chunk is an accepted IHDR |
| Parser.SignatureWords | src/Parser.js:64-65 | the two 32-bit comparisons accept exactly the 8 signature bytes |
| Parser.ParseSpec | src/Parser.js:59-87 | buffers under 57 bytes fail as too short; a wrong signature fails as missing; success implies both checks passed |
| Parser.StepEffect | src/Parser.js:19-24 | `ChunkStep`, one call of `chunk`: it fails exactly when it is an IHDR its handler rejects (with that handler's error) or an IEND with a payload; otherwise the chunk is recorded with its type, an IDAT payload is collected and an IHDR header replaces the old one, and nothing else changes |
| Parser.WalkAppends | src/Parser.js:66-78 | `Walk`, the chunk loop from `pos`: a successful loop only appends to the recorded chunks and IDAT payloads |
| Parser.Finish | src/Parser.js:79-86 | after the loop: succeeds exactly when the structure check passes, some IDAT was seen and the joined IDAT payloads inflate, and then returns the header, the chunks and the inflated data; a failed check and a missing IDAT give their errors |
| Parser.PngParser.constructor | src/Parser.js:6-8 | a new parser has no chunks |
| Parser.PngParser.HandleIdat | src/Parser.js:89-91 | appends the chunk's payload to `idat` |
| Parser.PngParser.AddChunk | src/Parser.js:19-24 | always appends the chunk with its type; passes exactly when the chunk step succeeds, then the fields are the step's result; otherwise it fails with the step's error |
| Parser.PngParser.WalkChunks | src/Parser.js:66-78 | the `while` loop: passes exactly when `Walk` from offset 8 succeeds, and then leaves the fields as `Walk` returns them; otherwise fails with `Walk`'s error |
| Parser.PngParser.Parse | src/Parser.js:59-87 | returns exactly `ParseSpec` of the buffer and the header left in the field; on success `chunks` and `idat` are cleared and `hdr` holds the returned header |
| ParserProperties.ChunksOfAt | src/Parser.js:20-21 | each recorded entry is the chunk with the type its bytes give, and the entries' bytes are the chunks |
| ParserProperties.WalkIsReplay | src/Parser.js:66-78 | where the buffer splits into chunks, the loop equals the handlers replayed over the split, result and error alike; where it does not, the loop fails |
| ParserProperties.ReplayAccepts | src/Parser.js:19-24 | replaying the handlers succeeds exactly when every chunk passes its handler |
| ParserProperties.ReplayChunks | src/Parser.js:21 | a successful replay records one entry per chunk, in order |
| ParserProperties.ReplayIdat | src/Parser.js:89-91 | a successful replay collects the payload of each IDAT chunk, in order |
| ParserProperties.ReplayHeader | src/Parser.js:29 | a successful replay ends with the header of the last IHDR chunk |
| ParserProperties.ReplayErrorIgnoresHeader | src/Parser.js:19-29 | success and the error of a replay do not depend on the header it starts with |
| ParserProperties.SignedWalk | src/Parser.js:66-78 | for a signed buffer, the loop succeeds exactly when the buffer splits and every chunk passes, and then it returns the split's chunks, IDAT payloads and last header, with a header present when the first chunk is IHDR |
| ParserProperties.ParseAcceptsExactly | src/Parser.js:59-87 | `parse` succeeds exactly on acceptable buffers (signed, long enough, split into accepted chunks, IHDR first, IEND last, some IDAT, inflatable), returning the split's chunks, the last IHDR header and the inflated joined IDAT payloads |
| ParserProperties.ParsedChunksTileFile | src/Parser.js:66-78 | the signature followed by the parsed chunks is the whole file, and each chunk is well framed with the type its bytes give |
| ParserProperties.LastHeaderKeepsSome | src/Parser.js:29 | once a header is present, later chunks never remove it |
| ParserProperties.LeadingIhdrResets | src/Parser.js:29 | a list led by an accepted IHDR ends with the same header whatever header it started with |
| ParserProperties.ParseIgnoresStaleHeader | src/Parser.js:59-61 | the header left by an earlier call never changes the result of `parse` |
| ParserProperties.StepIgnoresHeader | src/Parser.js:19-24 | a chunk step fails alike, and records the same chunks and payloads, whatever header it starts with |
| ParserProperties.WalkErrorIgnoresHeader | src/Parser.js:66-78 | the loop's success and error do not depend on the header it starts with |
| Optimizer.DeflateSync | src/Optimizer.js:26-28 | the result is the compressor applied to the data alone, whatever options are passed |
| Optimizer.OptionsOf | src/Optimizer.js:57-62 | the option object carries the window bits, level, memory level and strategy of the parameter set |
| Optimizer.FilteredFor | src/Optimizer.js:63 | the refiltered data for the filter, or empty data when the image has none for it |
| Optimizer.Compress | src/Optimizer.js:63-64 | the compressed data of a parameter set is the compressor applied to the refiltered data of its filter, or to the empty buffer when the image has no data for that filter |
| Optimizer.OptionsIgnored | src/Optimizer.js:26-28 | parameter sets with the same filter give the same compressed data: the zlib options never reach the compressor |
| Optimizer.Improve | src/Optimizer.js:66-70 | after an update a size is recorded and it never grows; the best is kept exactly when its size is at most the new length; otherwise the new data, its size and its parameter set replace it |
| Optimizer.Search | src/Optimizer.js:43-45 | with no parameter sets nothing is chosen; otherwise the kept parameter set is one of the list, the kept data is its compressed data, and the recorded size is that data's length |
| Optimizer.SearchFindsFirstMinimum | src/Optimizer.js:41-45 | after the fold, the best is the first parameter set with the smallest compressed size, with that data and size; with no parameter sets nothing is chosen |
| Optimizer.SearchNeverIncreases | src/Optimizer.js:66-70 | going on through more parameter sets never increases the recorded size |
| Optimizer.MaxLength | src/Optimizer.js:91 | the limit is positive; a set limit is used as given, and an unset or zero limit becomes 0x7fffffff bytes |
| Optimizer.Split | src/Optimizer.js:91-96 | the split loop cuts as few slices as slices of at most `m` bytes allow: `n` slices cover at most `n*m` bytes, and for non-empty data `n-1` slices of `m` bytes would fall short |
| Optimizer.SplitFlattens | src/Optimizer.js:93-96 | the slices of the split loop join back to the data |
| Optimizer.SplitBounded | src/Optimizer.js:93-96 | every slice is non-empty and at most the limit; empty data gives no slice |
| Optimizer.IdatFrame | src/Optimizer.js:104-105 | the buffer is 12 bytes longer than the data and carries it as its payload |
| Optimizer.IdatRecord | src/Optimizer.js:103-107 | the chunk `buildIDAT` returns is 12 bytes longer than its data, has type IDAT and the data as payload |
| Optimizer.IdatRecordShape | src/Optimizer.js:103-107 | an IDAT record ends with the CRC of the type IDAT and its data, and under 2^31 bytes its length field holds the data size and it is well framed |
| Optimizer.Emit | src/Optimizer.js:86-99 | the buffers the chunk loop pushes: at least one per non-IDAT chunk, and exactly one per non-IDAT chunk when there is no data to place |
| Optimizer.Rebuild | src/Optimizer.js:83-101 | the rebuilt file starts with the PNG signature |
| Optimizer.EmitWithoutData | src/Optimizer.js:85-98 | without best data, every IDAT chunk is dropped and the other chunks are copied in order |
| Optimizer.EmitPrefix | src/Optimizer.js:86-89 | chunks before the first IDAT chunk are copied as they are |
| Optimizer.EmitReplacesFirstIdat | src/Optimizer.js:86-98 | with data, the output is the chunks before the first IDAT, then the IDAT records of the slices, then the non-IDAT chunks after it |
| Optimizer.EmitWithoutIdat | src/Optimizer.js:86-89 | with no IDAT chunk every chunk is copied and the data is not placed |
| Optimizer.PngOptimizer.constructor | src/Optimizer.js:7-22 | a new optimizer has no image and no best result |
| Optimizer.PngOptimizer.CompressSync | src/Optimizer.js:56-71 | the best fields become `Improve` of their old value with the data compressed for the parameter set |
| Optimizer.PngOptimizer.BuildIdat | src/Optimizer.js:103-107 | the result is the IDAT record of the data (zero-filled buffer, data at offset 8, completed as IDAT) |
| Optimizer.PngOptimizer.PushIdats | src/Optimizer.js:91-96 | appends the IDAT records of the slices of the data, in order |
| Optimizer.PngOptimizer.BuildPng | src/Optimizer.js:83-101 | the output is `Rebuild` of the image's chunks and the best data |
| Optimizer.PngOptimizer.BufferSync | src/Optimizer.js:34-50 | succeeds exactly when `parse` succeeds, the image transforms do not throw and the parameter sets expand; a parse error is passed on, a transform error is reported as such, and either failure changes no field; a failed expansion is reported after the image is stored and the best fields reset, and leaves them so; on success the best fields hold the fold over all parameter sets, the output is the rebuilt file and the image is dropped |
| RebuildProperties.RecordsRoundTrip | src/Optimizer.js:103-107 | IDAT records of pieces under 2^31 bytes are well framed, and reading their payloads gives the pieces back |
| RebuildProperties.SplitRecordsRoundTrip | src/Optimizer.js:91-96 | for a limit under 2^31, the records of the slices are well framed and their payloads join to the data |
| RebuildProperties.EmitRoundTrip | src/Optimizer.js:83-101 | from well-framed chunks with matching types, the emitted buffers are well framed, and their IDAT payloads join to the best data when there is data and an IDAT chunk, and to nothing otherwise |
| RebuildProperties.RebuildRoundTrip | src/Optimizer.js:83-101 | the rebuilt file starts with the signature, the parser's splitter finds exactly the emitted chunks in it, and their IDAT payloads join to the placed data |

## Left out

- Compression and decompression (pako) are function parameters. `inflate` returns None where pako throws.
- The Image module's transforms (`unfilter`, `opaque`, `grayScale`, `filterAll`) form the `prepare` parameter, which returns None where they throw. That module is not part of this model, so nothing is stated about what they do to the chunk list or when they throw, and all their errors are one constructor, `PrepareFailed`.
- Png.CompleteChunk: `completeChunk` lives in the Image module, which is not part of this model. Its CRC is the `crc` parameter. Its length field is taken as the low 32 bits of the payload size, which only matters for payloads of 2^32 bytes or more.
- `Parameters.expand` and the default matrices are not part of this model. `PngOptimizer` is given what `this.paramSets()` returns: the list of parameter sets, or None where expanding the matrices throws a ConfigError.
- Logging (`reportOne`, `reportBest`, `log`, `verbosity`, the file-name suffix) has no effect on the result.
- `base64String` only converts base64 to and from bytes around `bufferSync`.
- Optimizer.MaxLength: `maxIdatLength` is a natural number here. Negative, fractional and non-numeric option values are not modelled.
- Parser.PngParser.Parse: states nothing about the fields after a failed parse. The source leaves them partly filled, and no caller reads them.
- Error messages are reduced to one constructor per message. Only the values a message prints are kept: the offset of an incomplete chunk, and the unsupported bit depth, colour type, compression method or filter method.
- Chunk types are kept as their four bytes, not as the UTF-8 string `buf.toString("utf8", 4, 8)`. Only the exact ASCII bytes decode to "IHDR", "IEND" or "IDAT", so every comparison and every `handle_` lookup agrees.
- Buffers are sequences, so slices that share memory with the input (`buf.slice`) are modelled as copies. Nothing in the parser or optimizer writes through them.
