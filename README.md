# Verified models of the CS110 assignment cores

This project models the sequential cores of a systems-programming course
repository (eight assignments) in Dafny and proves properties of those models.
Each source file becomes one or more Dafny modules:

| module | source | what it models |
|---|---|---|
| `Header` (`http_header.dfy`) | `assign7/header.cc` | the case-folded name-to-value map of an HTTP header block, its line-oriented ingest with continuation lines, numeric lookup and serialisation (RFC 7230, sections 3.2 and 3.2.4) |
| `Response` (`http_response.dfy`) | `assign7/response.cc` | the status line, the reason-phrase table, the `Cache-Control` caching and TTL rule, serialisation |
| `V6Inode`, `V6File`, `V6Directory`, `V6Pathname`, `V6Checksum` | `assign2/*.c` | the Unix V6 file-system reader over a disk given as a map from sector number to 512 bytes: inode fetch, block index lookup (direct, indirect, doubly indirect), file size, valid bytes per block, directory scan, path resolution, checksums |
| `RssArticle`, `RssIndex`, `NewsAggregator` | `assign6/article.h`, `assign6/rss-index.cc`, `assign6/news-aggregator.cc` | the article order, the word-to-article count index with its frequency-sorted query, and the aggregator's URL de-duplication and merge of articles sharing a title |
| `ActorPath`, `ActorSearch` | `assign1/path.cc`, `assign1/search.cc` | the path of (film, player) links with undo and reverse, and the breadth-first search over a film database |
| `MrServer`, `MrMessages`, `MrHash`, `GroupByKey` | `assign8/mapreduce-server.cc`, `assign8/mr-messages.cc`, `assign8/mr-hash.h`, `assign8/group-by-key.py` | the MapReduce server's pattern queue and configuration checks, the text message codec, the order-independent file hash, and the grouping of sorted mapper output |
| `TraceSystemCalls`, `TraceCache`, `TraceCompile`, `TraceOptions` | `assign3/trace-system-calls.cc`, `assign3/trace-options.cc` | the parameter-type words, the reading of `SYSCALL_DEFINE` macros, the first-definition-wins signature table, the signature cache format, the compilation of the three tables, and the `--flag` scanner of `trace` |
| `StshParseUtils` | `assign4-clean/stsh-parse-utils.cc` | `parseNumber`, the shell's reading of a non-negative decimal argument |

Shared modules, which carry no source of their own:
- `Wrappers` holds `Option` and `Result`.
- `Text` holds characters, trimming, case folding, lines read by `getline`, splitting and decimal text.
- `Lex` holds the `std::string` order, sorting and the sorted keys of a set.
- `CNumbers` holds `strtol` in bases 0 and 10 with its clamping to the `long` range, `istream >> int` and `std::stoi`.

Objects whose members the source updates in place are classes with those fields:
`Header.HTTPHeader`, `Response.HTTPResponse`, `RssIndex.RSSIndex`, `NewsAggregator.Aggregator`, `ActorPath.Path`,
`MrServer.MapReduceServer`, `MrMessages.Connection` and `TraceCompile.SystemCallData`.
The source's loops are methods with loop invariants, each proved against a function that
defines its result. Properties relating several calls are lemmas about those functions.

Some things the machine provides are parameters:
- streams are texts with a read position;
- the film database is two finite maps;
- the disk is a map of sectors;
- SHA-1 and `std::hash<string>` are given as functions;
- the files a program opens are given as their texts, or None when opening fails;
- `stat` and `access` are a description of the machine (`MrServer.Env`).

`extractPortNumber`, `parseNumberInRange` and `ensureDirectoryExists` are declared in
`assign8/mr-utils.h`; the rows below cite that header. The model follows their
definitions in `mr-utils.cc`, which this tree keeps only in a second copy of the
assignment. The reducer patterns use `numberToString`, whose default width of five
digits pads the number with zeros.

## Model

| member | source | states |
|---|---|---|
| Header.Extend | assign7/header.cc:84-87 | the value under the case-folded name becomes the old value (empty when absent), a space and the new text; that name is added to the keys and every other entry is unchanged |
| Header.IngestWith | assign7/header.cc:17-37 | the header loop, for any per-line step, stops at a position between the start and the end of the stream |
| Header.IngestFrom | assign7/header.cc:17-37 | `ingestHeader` from a position ends within the stream |
| Header.ValueAsNumber | assign7/header.cc:66-72 | 0 for an empty value and for a value `strtol` in base 0 does not consume entirely; otherwise the `strtol` value; always within the range of `long` |
| Header.Entries | assign7/header.cc:75 | one entry per name, in the order given, each paired with the value stored under it |
| Header.Serialize | assign7/header.cc:74-80 | an empty header writes nothing |
| Header.HTTPHeader.constructor | assign7/header.h:80 | a new header holds no fields |
| Header.HTTPHeader.AddHeader | assign7/header.cc:45-48 | the value is stored under the lower-case form of the name; every other entry is unchanged |
| Header.HTTPHeader.AddHeaderInt | assign7/header.cc:39-43 | the decimal text of the `int` is stored under the lower-case name |
| Header.HTTPHeader.RemoveHeader | assign7/header.cc:50-52 | exactly the lower-case name is erased |
| Header.HTTPHeader.ExtendHeader | assign7/header.cc:84-87 | the new fields are `Extend` of the old ones |
| Header.HTTPHeader.ContainsName | assign7/header.cc:54-57 | true exactly when the lower-case name is stored |
| Header.HTTPHeader.GetValueAsString | assign7/header.cc:59-64 | the stored value under the lower-case name, and the empty string when it is absent |
| Header.HTTPHeader.GetValueAsNumber | assign7/header.cc:66-72 | 0 for an absent name, otherwise `ValueAsNumber` of the stored value |
| Header.HTTPHeader.IngestHeader | assign7/header.cc:17-37 | the loop over lines leaves exactly the fields and stream position of `IngestFrom` from the old fields and an empty current name |
| CNumbers.NoNulInDecimal | assign7/header.cc:70 | the decimal text of an integer holds no NUL, so `strtol` sees all of it |
| Header.ValueAsNumberOfInt | assign7/header.cc:39-72 | an `int` stored with `addHeader(name, int)` reads back as that number |
| Header.ValueAsNumberExamples | assign7/header.h:70-77 | base 0: "0x1A" is 26 and "010" is 8 |
| Header.SplitFieldWellFormed | assign7/header.cc:28-33 | the name split from a line is trimmed and free of ':' and newlines, and its value is a single line |
| Header.IngestLineWellFormed | assign7/header.cc:20-35 | one line keeps every stored name lower-case, trimmed and colon-free and every value on one line |
| Header.IngestWellFormed | assign7/header.cc:17-37 | every map `ingestHeader` builds has such names and values |
| Header.FieldLineRead | assign7/header.cc:22-33 | a serialised line `k: v` followed by CR is a field line whose name is `k` and whose value is `v` trimmed |
| Header.FieldLineIngested | assign7/header.cc:28-34 | such a line stores the trimmed value under the lower-case name and makes `k` the current name |
| Header.IngestFieldLine | assign7/header.cc:28-34 | the serialised line of a stored (lower-case) name is read back as that field |
| Header.IngestBlankLine | assign7/header.cc:22-23 | a lone CR is blank once right-trimmed and ends the block |
| Header.AddEntriesAt | assign7/header.cc:34 | adding the entries of a map under some of its names holds, at each name, its trimmed value exactly when the name is among them |
| Header.IngestWithLines | assign7/header.cc:17-37 | the lines of some entries and then a blank line add each entry in turn and stop right after the blank line |
| Header.LinesAtSerialized | assign7/header.cc:74-80 | serialised entries followed by CRLF are read by `getline` as their field lines and a blank line |
| Header.IngestLineReadsEntries | assign7/header.cc:20-35 | the per-line step of `ingestHeader` reads each serialised entry as that entry |
| Header.IngestLineEndsAtBlank | assign7/header.cc:22-23 | the per-line step ends the block at a lone CR |
| Header.EntriesOfWellFormed | assign7/header.cc:75-76 | the entries of a well-formed map are lower-case single-line names and values |
| Header.IngestSerializedEntries | assign7/header.cc:17-80 | serialised entries plus a blank line re-ingest as those entries, values trimmed, stopping after the blank line |
| Header.AddAllEntries | assign7/header.cc:75-76 | adding every entry of a map to an empty map gives the map with trimmed values |
| Header.EntriesRoundTrip | assign7/header.cc:74-80 | the serialised entries under all the names of a map re-ingest as the map with trimmed values |
| Header.SerializeRoundTrip | assign7/header.cc:74-80 | `operator<<` output followed by a blank line, wherever it sits in a stream, re-ingests as the same map (values trimmed) and stops right after the blank line |
| Header.IngestLineReadsFields | assign7/header.cc:20-35 | the per-line step reads the serialised fields of a well-formed map as its entries and stops at a blank line |
| Header.ReingestIngested | assign7/header.cc:17-80 | whatever `ingestHeader` built is rebuilt, values trimmed, by ingesting its serialisation |
| Header.TrimValuesOfTrimmed | assign7/header.cc:33 | a map whose values are all trimmed comes back unchanged |
| Header.IngestStep | assign7/header.cc:19-36 | a line that does not end the block: ingesting continues after it with the new fields and name |
| Header.IngestStop | assign7/header.cc:23 | a line that ends the block: ingesting stops after it with the fields unchanged |
| Header.ContinuationIngested | assign7/header.cc:24-26 | a line starting with a space extends the current field with the trimmed rest |
| Header.IngestThreeLines | assign7/header.cc:19-36 | two lines that do not end the block and one that does give the fields after the second |
| Header.ContinuationJoins | assign7/header.cc:24-34 | "k: v", then " w", then a blank line give the single field `k` with value `trim(v) + " " + trim(w)` |
| Response.TokenEnd | assign7/response.cc:21 | the word read by `>>` ends at the first white space or at the end of the line |
| Response.TokenEndNoSpace | assign7/response.cc:21 | no white space lies inside the word |
| Response.TokenEndTo | assign7/response.cc:21 | the word ends exactly at the first white space after its start |
| Response.ReadWord | assign7/response.cc:20-21 | `iss >> protocol` stops within the line |
| Response.ReadWordIs | assign7/response.cc:20-21 | the protocol read holds no white space, and it is empty exactly when the line held only white space |
| Response.ReadWordOf | assign7/response.cc:20-21 | a word followed by white space or nothing is read whole |
| Response.StatusLine | assign7/response.cc:17-25 | the code read from the status line lies within the range of `int` |
| Response.PhraseOfKnown | assign7/response.cc:77-111 | every code in the table has one of the table's phrases |
| Response.PhraseOfAny | assign7/response.cc:77-113 | every code gets a phrase from the table or "Unknown Code" |
| Response.UnknownNotKnown | assign7/response.cc:112 | "Unknown Code" is not the phrase of any listed code |
| Response.StatusMessageKnown | assign7/response.cc:77-114 | a code gets "Unknown Code" exactly when it is not one of the 33 listed codes |
| Response.StatusMessageExamples | assign7/response.cc:81-109 | 200 is "OK", 403 "Forbidden", 504 "Gateway Timeout", and 301 the non-canonical "Permanently Moved" |
| Response.StatusMessageGaps | assign7/response.cc:93-110 | 306 and 503 are not in the table and get "Unknown Code" |
| Response.PhrasesOneLine1 | assign7/response.cc:79-87 | these phrases hold no line break |
| Response.PhrasesOneLine2 | assign7/response.cc:88-95 | these phrases hold no line break |
| Response.PhrasesOneLine3 | assign7/response.cc:96-103 | these phrases hold no line break |
| Response.PhrasesOneLine4 | assign7/response.cc:104-111 | these phrases hold no line break |
| Response.KnownPhrasesOneLine | assign7/response.cc:79-111 | no phrase in the table holds a line break |
| Response.StatusMessageOneLine | assign7/response.cc:77-114 | the phrase of any code holds no line break |
| Response.TTL | assign7/response.cc:54-64 | 0 without a `Cache-Control` field or without "max-age=" in it; always within the range of `int` |
| Response.TTLAfterFirstMaxAge | assign7/response.cc:57-63 | otherwise the time to live is the integer read right after the first occurrence of "max-age=" |
| Response.MaxAgeRead | assign7/response.cc:57-63 | a field "max-age=n" lives n seconds |
| Response.PermitsCaching | assign7/response.cc:45-51 | caching permitted implies a `Cache-Control` field and a positive time to live |
| Response.DirectiveForbidsCaching | assign7/response.cc:48-50 | "private", "no-cache" or "no-store" anywhere in the field forbids caching |
| Response.CachingFollowsTTL | assign7/response.cc:45-51 | with a field and none of those directives, caching is permitted exactly when the time to live is positive |
| Response.PrivateExample | assign7/response.cc:48 | "private, max-age=60" may not be cached |
| Response.ResponseText | assign7/response.cc:66-70 | the text written is the status line, its newline, the header block and a blank line |
| Response.StatusLineSplit | assign7/response.cc:19-24 | after a protocol word and white space, the code is read from the rest of the line |
| Response.ReadIntOfPrinted | assign7/response.cc:24 | the decimal text of an `int` between spaces reads back as that `int` |
| Response.StatusLineOf | assign7/response.cc:17-25 | a status line with any reason phrase reads back as its protocol and code |
| Response.StatusLineRoundTrip | assign7/response.cc:66-68 | the status line `operator<<` writes reads back as the protocol and code |
| Response.NoNewlineInStatusLine | assign7/response.cc:67-68 | the status line is one line |
| Response.ResponseStatusRoundTrip | assign7/response.cc:16-25 | a written response found in a stream gives its status line to `getline`, read back as the same protocol and code |
| Response.ResponseHeaderRoundTrip | assign7/response.cc:26 | after the status line, the header block reads back as the same fields, values trimmed, stopping after the blank line |
| Response.HeaderAfterLine | assign7/response.cc:69-70 | a header block written after any line reads back from the start of the next line |
| Response.HTTPResponse.constructor | assign7/response.h:90-93 | a new response has an empty protocol and an empty header of its own; its `code`, which nothing initialises, is whatever value it is given |
| Response.HTTPResponse.SetProtocol | assign7/response.cc:33-35 | stores the protocol and leaves the code alone |
| Response.HTTPResponse.SetResponseCode | assign7/response.cc:37-39 | stores the code and leaves the protocol alone |
| Response.HTTPResponse.GetProtocol | assign7/response.h:54 | returns the stored protocol |
| Response.HTTPResponse.GetResponseCode | assign7/response.h:66 | returns the stored code |
| Response.HTTPResponse.IngestResponseHeader | assign7/response.cc:16-27 | the protocol and code are those of the first line, and the header is what `ingestHeader` makes of the lines after it |
| Response.HTTPResponse.GetTTL | assign7/response.cc:54-64 | the time to live of the stored header |
| Response.HTTPResponse.CanBeCached | assign7/response.cc:45-52 | `permitsCaching` of the stored header |
| Response.HTTPResponse.ToText | assign7/response.cc:66-70 | `operator<<` without the payload writes `ResponseText` of the stored fields |
| V6Inode.ReadSector | assign2/diskimg.c:16-19 | a read that succeeds gives the 512 bytes stored for the sector; an absent or short sector is treated as a failed read (see Left out) |
| V6Inode.DecodeInode | assign2/inode.c:27 | the 32 bytes of a slot decode to an inode with eight block addresses and two-word times |
| V6Inode.InodePlace | assign2/inode.c:15-18 | inode n sits in slot `(n-1) % 16` of sector `2 + (n-1) / 16`, and that place gives n back |
| V6Inode.InodePlaceInjective | assign2/inode.c:15-18 | two inumbers never share a place |
| V6Inode.IGet | assign2/inode.c:13-31 | a fetched inode is well formed |
| V6Inode.IGetIs | assign2/inode.c:13-31 | the fetch fails exactly when the inumber is below 1 or its sector cannot be read, and otherwise returns the inode decoded from its slot |
| V6Inode.DecodeInodeFields | assign2/inode.c:82-84 | the size bytes and block addresses are read little-endian from their offsets |
| V6Inode.IndexLookup | assign2/inode.c:40-76 | the result is -1 or a 16-bit sector number |
| V6Inode.DirectBlocks | assign2/inode.c:42-47 | a small file's lookup reads no sector: any two disks give the same answer, `i_addr[blockNum]` for blockNum in 0..7 |
| V6Inode.SinglyIndirect | assign2/inode.c:50-58 | a large file's block below 1792 depends on the disk only through the sector `i_addr[blockNum / 256]` |
| V6Inode.DoublyIndirect | assign2/inode.c:59-75 | a block at or past 1792 depends on the disk only through the sector `i_addr[7]` and the sector named by entry `(blockNum - 1792) / 256` of it |
| V6Inode.IndirectSlots | assign2/inode.c:52-70 | the singly indirect blocks use slots 0 to 6 and the doubly indirect ones fit one sector of sectors, and the offsets give the block number back |
| V6Inode.Size | assign2/inode.c:82-84 | the size is below 2^24, its high byte is `i_size0` and its low 16 bits are `i_size1` |
| V6File.ValidBytes | assign2/file.c:27-34 | the valid byte count is at most 512: the remainder `size % 512` for block `size / 512` and 512 for every other block |
| V6File.SumValidFull | assign2/file.c:29-33 | every block before the one holding the end of the file is full |
| V6File.SumValidIsSize | assign2/file.c:29-34 | the valid bytes of blocks 0 to ⌈size/512⌉−1 add up to exactly the size |
| V6File.EmptyTailBlock | assign2/file.c:30-31 | for a size that is a multiple of 512, block size/512 has 0 valid bytes and is not among the file's blocks |
| V6File.GetBlock | assign2/file.c:12-35 | a fetched block is one 512-byte sector with at most 512 valid bytes |
| V6File.GetBlockIs | assign2/file.c:12-35 | the fetch fails (-1) exactly when the inode fetch, the index lookup or the sector read fails; otherwise it is the sector the lookup names, with the valid bytes of that block |
| V6File.Blocks | assign2/file.c:12-35 | one fetch result per block index, each fetched block a whole sector |
| V6File.BlocksValid | assign2/file.c:27-34 | each block of a file that is fetched carries the valid byte count of its place in the file |
| V6Directory.CName | assign2/directory.c:37 | the name compared is a prefix of the 14 raw bytes |
| V6Directory.CNameIs | assign2/direntv6.h:12 | the name is the longest NUL-free prefix of `d_name`, ended by its first NUL when there is one |
| V6Directory.EntryAt | assign2/direntv6.h:10-13 | entry k of a block is its 16-bit inumber and a 14-byte name |
| V6Directory.FindEntry | assign2/directory.c:14-47 | nothing is found when the inode fetch fails, the inode is not a directory, or its size is 0 |
| V6Directory.ScannedBlocks | assign2/directory.c:30 | `(size - 1) / 512 + 1` blocks are exactly the blocks that hold the directory's bytes |
| V6Directory.FindInBlockFirst | assign2/directory.c:35-42 | a match found in a block is the first valid entry with the name, and no match means no valid entry has it |
| V6Directory.ScanFindsAny | assign2/directory.c:31-46 | when every block reads, the scan fails exactly when no valid entry of any block has the name, and what it finds has the name |
| V6Directory.FindName | assign2/directory.c:14-47 | returns 0 and the first match in block-then-slot order exactly when `FindEntry` finds one; otherwise -1 with `dirEnt` untouched |
| V6Directory.SearchBlock | assign2/directory.c:35-42 | the inner loop finds the first of the block's `valid / 16` entries whose name matches |
| V6Pathname.FirstSlash | assign2/pathname.c:34 | `strchr(path, '/')` lies within the path, or is its end when there is no '/' |
| V6Pathname.FirstSlashIs | assign2/pathname.c:34 | no '/' comes before that index, and a '/' sits at it when it is inside the path |
| V6Pathname.FirstSlashAt | assign2/pathname.c:34 | the first '/' is at k when no '/' comes before k |
| V6Pathname.Step | assign2/pathname.c:36-39 | one lookup gives -1 or the 16-bit inumber of the entry found |
| V6Pathname.Helper | assign2/pathname.c:33-51 | resolving a path gives -1 or a 16-bit inumber |
| V6Pathname.Lookup | assign2/pathname.c:19-27 | "/" is `ROOT_INUMBER` (1); every result is -1 or a 16-bit inumber |
| V6Pathname.HelperOne | assign2/pathname.c:35-39 | a path with no '/' is looked up directly in the current directory |
| V6Pathname.FirstSlashConcat | assign2/pathname.c:34 | the first '/' of a concatenation is that of the first part, or found in the second when the first has none |
| V6Pathname.SplitAtFirst | assign2/pathname.c:41-45 | `p/q` with no '/' in p splits into the component p and the rest q |
| V6Pathname.SplitInside | assign2/pathname.c:41-45 | `p/q` with a '/' in p splits at p's first '/' |
| V6Pathname.SlicesAround | assign2/pathname.c:41-45 | the parts on both sides of that '/' |
| V6Pathname.ConcatSlices | assign2/pathname.c:41-45 | slicing a concatenation within its first part |
| V6Pathname.HelperAppend | assign2/pathname.c:40-49 | resolving `p/q` resolves p, then q from the directory p names; a failed lookup in p is -1 at once |
| V6Pathname.LookupTwo | assign2/pathname.c:19-49 | "/a/b" is b looked up in the directory that a names in the root, and -1 when a is not found |
| V6Pathname.TrailingSlash | assign2/pathname.c:34-41 | a trailing '/' ends with a lookup of the empty name in the last directory |
| V6Checksum.GatherLength | assign2/chksumfile.c:35-45 | the bytes gathered from blocks 0 to n-1 number the sum of their valid byte counts |
| V6Checksum.Contents | assign2/chksumfile.c:23-45 | nothing is hashed when the inode cannot be fetched or is not allocated |
| V6Checksum.ContentsLength | assign2/chksumfile.c:34-45 | what is hashed is exactly `size` bytes of the file |
| V6Checksum.ChecksumByInumber | assign2/chksumfile.c:16-51 | returns 20 and the SHA-1 of the file's blocks in order, each cut to its valid bytes, exactly when the inode is fetched and allocated and every block reads; otherwise -1 with the buffer untouched |
| V6Checksum.HashBlocks | assign2/chksumfile.c:35-45 | the loop feeds blocks 0 to ⌈size/512⌉−1 in order, each cut to its valid bytes, and fails exactly when one of them fails |
| V6Checksum.HashBlock | assign2/chksumfile.c:36-44 | one pass appends the valid bytes of block `bno`, or fails when that block fails |
| V6Checksum.GatherFails | assign2/chksumfile.c:40-41 | once a block fails, the whole checksum fails |
| V6Checksum.ContentsIs | assign2/chksumfile.c:34-45 | for an allocated inode, the bytes hashed are the gathered blocks |
| V6Checksum.NextBlock | assign2/chksumfile.c:35-37 | offset m·512 is block m, and it lies inside the file exactly when m is below the block count |
| V6Checksum.ChecksumByPathname | assign2/chksumfile.c:53-60 | a negative lookup is returned as it is; otherwise the checksum of the inode the path names |
| V6Checksum.Hex | assign2/chksumfile.c:62-68 | two characters per byte |
| V6Checksum.HexDigitInjective | assign2/chksumfile.c:66 | different nibbles print as different digits |
| V6Checksum.HexByteInjective | assign2/chksumfile.c:66 | two bytes with the same `%02x` text are the same byte |
| V6Checksum.HexInjective | assign2/chksumfile.c:62-68 | different checksums have different text |
| V6Checksum.HexAt | assign2/chksumfile.c:65-66 | characters 2i and 2i+1 are the high and low lowercase hex digits of byte i |
| V6Checksum.HexSnoc | assign2/chksumfile.c:65-66 | each pass appends the two digits of the next byte |
| V6Checksum.HexAppend | assign2/chksumfile.c:62-68 | the text of a concatenation is the concatenation of the texts |
| V6Checksum.Cvt2String | assign2/chksumfile.c:62-68 | `outstring` starts with the 40 lowercase hex digits of the checksum and the NUL `sprintf` leaves; the rest of the buffer is untouched |
| V6Checksum.Compare | assign2/chksumfile.c:70-78 | 1 exactly when all 20 bytes are equal, 0 otherwise |
| RssArticle.BeforeIrreflexive | assign6/article.h:31-33 | no article is before itself |
| RssArticle.BeforeTransitive | assign6/article.h:31-33 | the order on articles is transitive |
| RssArticle.EquivalentIffSameUrl | assign6/article.h:24-33 | two articles are equivalent (neither before the other) exactly when their URLs are equal, whatever their titles |
| RssIndex.AddWord | assign6/rss-index.cc:16 | after one increment the word and the article's URL are in the index |
| RssIndex.AddWordCount | assign6/rss-index.cc:16 | one increment raises exactly the counter of that word and URL by one |
| RssIndex.AddWordWellFormed | assign6/rss-index.cc:16 | every entry stays under its own URL with a count of at least 1 |
| RssIndex.AddAllCount | assign6/rss-index.cc:14-18 | after `add`, the counter of a word for the article's URL has grown by the number of times the word occurs in the list, duplicates included, and no other counter has changed; an empty list changes nothing |
| RssIndex.AddAllWellFormed | assign6/rss-index.cc:14-18 | `add` keeps every entry under its own URL with a count of at least 1 |
| RssIndex.AddAllKeepsArticle | assign6/rss-index.cc:16 | an article already stored under a URL stays, whatever the title of a later article with that URL; a new URL is stored with the article added |
| RssIndex.AddAllGrows | assign6/rss-index.cc:16 | nothing recorded is removed |
| RssIndex.AddAllCommutes | assign6/rss-index.cc:14-18 | two `add` calls in either order give the same counters |
| RssIndex.OutranksAsymmetric | assign6/rss-index.cc:27-30 | the sort comparator is asymmetric |
| RssIndex.OutranksTransitive | assign6/rss-index.cc:27-30 | the sort comparator is transitive |
| RssIndex.OutranksTotal | assign6/rss-index.cc:27-30 | entries with different URLs are always ranked one way or the other |
| RssIndex.RankInsert | assign6/rss-index.cc:27-30 | inserting into a ranked sequence keeps it ranked and adds exactly the new entry |
| RssIndex.RankInsertFront | assign6/rss-index.cc:27-30 | an entry that outranks the head goes in front |
| RssIndex.RankInsertBehind | assign6/rss-index.cc:27-30 | an entry the head outranks goes behind it |
| RssIndex.RankSort | assign6/rss-index.cc:27-30 | `std::sort` with the comparator gives a ranked permutation of the entries |
| RssIndex.RankedUnique | assign6/rss-index.cc:27-30 | two ranked sequences with the same entries are equal, so the result does not depend on the gathering order |
| RssIndex.HeadIn | assign6/rss-index.cc:26 | the first entry of a non-empty list is in it |
| RssIndex.RankedTail | assign6/rss-index.cc:27-30 | the rest of a ranked list is everything but its head |
| RssIndex.RSSIndex.constructor | assign6/rss-index.h:37 | a new index is empty |
| RssIndex.RSSIndex.Add | assign6/rss-index.cc:14-18 | the index becomes `AddAll` of the old one, each word counted in turn, and stays well formed |
| RssIndex.RSSIndex.GetMatchingArticles | assign6/rss-index.cc:21-32 | nothing for an unseen word; otherwise every article recorded for the word exactly once with its counter (at least 1), sorted by count descending and by URL ascending among equal counts |
| RssIndex.MatchingUnique | assign6/rss-index.h:29-34 | the query has exactly one answer |
| NewsAggregator.Combine | assign6/news-aggregator.cc:246-256 | merging two arrivals of a title keeps the tokens sorted and the later article's title |
| NewsAggregator.CombineIs | assign6/news-aggregator.cc:248-256 | the merged URL is one of the two and the lexicographic minimum of both, and the merged tokens are the multiset intersection of the two token lists |
| NewsAggregator.CombineCommutes | assign6/news-aggregator.cc:248-256 | merging two arrivals of one title gives the same entry in either order |
| NewsAggregator.CombineAssociates | assign6/news-aggregator.cc:248-256 | merging is associative |
| NewsAggregator.Record | assign6/news-aggregator.cc:245-261 | after one arrival every stored token list is still sorted |
| NewsAggregator.RecordAll | assign6/news-aggregator.cc:218-264 | after any arrivals every stored token list is still sorted |
| NewsAggregator.Group | assign6/news-aggregator.cc:246 | the arrivals of one title are arrivals with that title |
| NewsAggregator.GroupSorted | assign6/news-aggregator.cc:243-244 | the arrivals of one title have sorted tokens |
| NewsAggregator.Fold | assign6/news-aggregator.cc:245-261 | the arrivals of a title merged in order have sorted tokens |
| NewsAggregator.RecordAllIs | assign6/news-aggregator.cc:245-261 | a title is stored exactly when some article with it arrived, and its entry is the first arrival (stored as it is, 259) with each later one merged in turn |
| NewsAggregator.Remove | assign6/news-aggregator.cc:245-261 | removing one arrival shortens the list by one |
| NewsAggregator.RemoveCount | assign6/news-aggregator.cc:245-261 | removing one arrival takes it out of the multiset of arrivals |
| NewsAggregator.FoldRemove | assign6/news-aggregator.cc:248-256 | any one arrival of a title can be merged last |
| NewsAggregator.RemoveBeforeLast | assign6/news-aggregator.cc:245-261 | removing an arrival before the last one commutes with the last |
| NewsAggregator.RemoveKeeps | assign6/news-aggregator.cc:245-261 | what is left of a sorted one-title list is sorted and of that title |
| NewsAggregator.RemoveAt | assign6/news-aggregator.cc:245-261 | what is left after removing one arrival, element by element |
| NewsAggregator.FoldPermutation | assign6/news-aggregator.cc:245-261 | any two arrival orders of the same articles of a title merge to the same entry |
| NewsAggregator.DropLast | assign6/news-aggregator.cc:245-261 | the last arrival and the ones before it |
| NewsAggregator.GroupCounts | assign6/news-aggregator.cc:246 | the arrivals of a title are exactly the arrivals with that title, with their multiplicities |
| NewsAggregator.GroupPermutation | assign6/news-aggregator.cc:246 | two arrangements of the same arrivals have the same arrivals for each title |
| NewsAggregator.RecordAllOrderFree | assign6/news-aggregator.cc:245-261 | the final `titleMap` does not depend on the order in which the articles arrive |
| NewsAggregator.FetchedOnce | assign6/news-aggregator.cc:224-232 | each URL is downloaded at most once and never when it was already in `urlSet`; the set ends up holding exactly the old URLs and the ones claimed |
| NewsAggregator.Parsed | assign6/news-aggregator.cc:235-244 | the downloaded articles whose page parses are kept, each with its tokens sorted |
| NewsAggregator.AddEntriesWellFormed | assign6/news-aggregator.cc:266-270 | adding the merged entries keeps the index well formed |
| NewsAggregator.Aggregator.constructor | assign6/news-aggregator.cc:147-148 | no URL has been claimed and the index is empty |
| NewsAggregator.Aggregator.Claim | assign6/news-aggregator.cc:224-232 | the URL is new exactly when it was not in `urlSet`, and it is in the set afterwards |
| NewsAggregator.Aggregator.GatherTitles | assign6/news-aggregator.cc:218-265 | the article loop leaves `urlSet` with every article's URL and `titleMap` the merge of the articles actually downloaded and parsed, in order |
| NewsAggregator.Aggregator.ArticleTask | assign6/news-aggregator.cc:219-263 | one article's task: a known URL is skipped, a new one is claimed, and a page that fails to download leaves `titleMap` unchanged; otherwise its sorted tokens are recorded |
| NewsAggregator.Aggregator.IndexTitles | assign6/news-aggregator.cc:266-270 | every entry of `titleMap` is added to the index exactly once, in some order of its titles |
| NewsAggregator.Aggregator.ArticlesToTokens | assign6/news-aggregator.cc:213-271 | `article2tokens` claims the URLs, merges the articles of each title and adds each merged entry to the index once |
| NewsAggregator.Aggregator.FeedTask | assign6/news-aggregator.cc:182-207 | a feed URL already claimed changes nothing; a new one that fails to download adds only its URL; otherwise its articles are claimed, merged and indexed, each title once; the new state is `AfterFeed` of the old one |
| NewsAggregator.Aggregator.FeedsToArticles | assign6/news-aggregator.cc:178-210 | the feeds run in some order that holds each feed URL exactly once, and `urlSet` and the index end as `AfterFeeds`: each feed's task applied in turn to the state the earlier ones left, each feed's titles indexed once each; every feed URL ends up claimed |
| NewsAggregator.FeedsStep | assign6/news-aggregator.cc:178-210 | one more feed's task runs on the state the earlier feeds left, and its titles must be indexed once each |
| NewsAggregator.AfterFeedsClaims | assign6/news-aggregator.cc:182-186 | after the feeds' tasks every feed URL is claimed and no earlier URL is lost |
| NewsAggregator.AfterFeedsWellFormed | assign6/news-aggregator.cc:178-210 | the index stays well formed whatever feeds are processed, in whatever order |
| NewsAggregator.ClaimStep | assign6/news-aggregator.cc:224-232 | one more article: its URL joins the set, and it is downloaded exactly when the URL was new |
| NewsAggregator.ParseStep | assign6/news-aggregator.cc:235-244 | a downloaded article is recorded with its sorted tokens when its page parses and left out otherwise |
| NewsAggregator.SeenGrows | assign6/news-aggregator.cc:230 | claiming only adds URLs |
| ActorPath.Path.constructor | assign1/path.cc:14 | a new path holds only its start player: no links, length 0, and that player as its last |
| ActorPath.Path.AddConnection | assign1/path.cc:23-25 | the connection is appended unchecked: the start is unchanged, the length grows by one and the new player becomes the last |
| ActorPath.Path.UndoConnection | assign1/path.cc:31-34 | the last link is removed, and an empty path is left empty |
| ActorPath.Path.GetLastPlayer | assign1/path.cc:40-43 | the last player is the player of the last link, or the start player of a path without links |
| ActorPath.Path.Reverse | assign1/path.cc:45-55 | after the loop that rebuilds the path from its last player, the path starts at the old last player and its links are the old films last first, each leading to the player before it |
| ActorPath.ReversedPlayers | assign1/path.cc:45-55 | the j-th player of the reversed path is the (n-j)-th player of the original |
| ActorPath.ReverseShape | assign1/path.cc:45-55 | reversing keeps the length, ends at the old start player and lists the films in opposite order |
| ActorPath.ReverseTwice | assign1/path.cc:45-55 | reversing a path twice gives back its start player and its links |
| ActorPath.Path.Print | assign1/path.cc:57-69 | the text the printing loop writes is the path's text: each player followed by " was in ", the quoted film title, its year and "with" the next player, one line per link |
| ActorPath.Path.PrintLink | assign1/path.cc:61-66 | one turn of the loop writes one link's line, and the next player's opening unless it was the last link |
| ActorPath.EmptyPathText | assign1/path.cc:58 | a path without links prints as "[Empty path]" followed by a newline |
| ActorSearch.Search | assign1/search.cc:27-78 | the breadth-first loop is sound and complete: a chain it returns starts at the source with the dummy film, links each player to the next through a film both appear in, ends at the target and repeats no player; when the queue runs dry no such chain exists in the database |
| ActorSearch.ScanCast | assign1/search.cc:62-74 | scanning one film's cast marks every member of the cast as visited, marks nobody else, and keeps the queue made of chains without repeats, in breadth-first order, ending at distinct unexpanded players |
| ActorSearch.ExpandCredits | assign1/search.cc:52-77 | expanding the player at the front marks all of that player's films as seen, and every player in a film whose cast was read is visited |
| ActorSearch.Extend | assign1/search.cc:69-72 | a copy of a chain with one step added, to a player linked to its end and not yet on it, is again a chain without repeated players |
| ActorSearch.QueuedPop | assign1/search.cc:43-50 | taking the front path off the queue keeps the queue invariant with its end player counted as expanded |
| ActorSearch.QueuedPush | assign1/search.cc:65-72 | queueing an extension of the front path by an unvisited player keeps the queue invariant with that player marked visited |
| ActorSearch.PushOrder | assign1/search.cc:72 | a path one step longer than the front path, added at the back, keeps the queue ordered by length with lengths differing by at most one |
| ActorSearch.ChainVisited | assign1/search.cc:39-78 | once the visited players are closed under expansion, every player on any chain from the source is visited |
| ActorSearch.LinksOf | assign1/search.cc:84-87 | the printed path's links are the found chain's steps after the first, in order |
| ActorSearch.Report | assign1/search.cc:79-89 | the output is the no-path message exactly when no chain reaches the target, and otherwise the printed text of a chain from the source to the target |
| MrHash.FileLines | assign8/mr-hash.h:29-35 | `getline` reads no line at all exactly from an empty file |
| MrHash.FileHash | assign8/mr-hash.h:26-36 | the hash of a file is a `size_t` value, below 2^64 |
| MrHash.HashFile | assign8/mr-hash.h:26-36 | the loop's running hash, starting at 0, adding the string hash of each line read with its newline put back and stopping at the first failed read, is the file's hash: the sum of those line hashes modulo 2^64 |
| MrHash.AddLine | assign8/mr-hash.h:33-34 | adding one line's hash to the wrapped running hash gives the wrapped sum over the lines read so far and that one |
| MrHash.EmptyFileHash | assign8/mr-hash.h:28-32 | an empty file hashes to 0 |
| MrHash.FileLinesAppend | assign8/mr-hash.h:29-35 | the lines read from a text whose first part ends in a newline are that part's lines followed by the rest's |
| MrHash.OneLine | assign8/mr-hash.h:30-33 | a line followed by a newline is read as that single line |
| MrHash.MissingFinalNewline | assign8/mr-hash.h:30-33 | a last line without a newline is read as if its newline were there |
| MrHash.JoinFileLines | assign8/mr-hash.h:30-33 | no line read holds a newline, and the lines read, each with its newline put back, give the file's text, with a newline added when the last one was missing |
| MrHash.SumHashesPermutation | assign8/mr-hash.h:34 | the sum of the line hashes depends only on the multiset of lines, not on their order |
| MrHash.HashIgnoresLineOrder | assign8/mr-hash.h:26-36 | two files whose lines are the same up to order hash alike, which is what lets the hash compare output files whose lines came out in any order |
| MrHash.HashAppendLine | assign8/mr-hash.h:26-36 | appending a line to a file adds that line's hash, newline included, modulo 2^64 |
| MrHash.HashIgnoresFinalNewline | assign8/mr-hash.h:26-36 | a missing newline at the end of the file does not change its hash |
| MrMessages.BuildBackwardMap | assign8/mr-messages.cc:29-34 | the loop over the forward map enters every pair the other way round: each keyword of the forward map leads back to a kind with that keyword, and there are no other keys |
| MrMessages.MapsInverse | assign8/mr-messages.cc:18-37 | the forward map names exactly the six message kinds, and the two maps undo each other |
| MrMessages.BackwardMapUnique | assign8/mr-messages.cc:29-37 | any map that inverts the forward map is the backward map the server and workers use |
| MrMessages.MessageLine | assign8/mr-messages.cc:39-62 | every message written is one line ending in the `endl` newline |
| MrMessages.MessageText | assign8/mr-messages.cc:39-62 | every message line starts with its kind's keyword |
| MrMessages.MessageLineIsOneLine | assign8/mr-messages.cc:39-62 | with a payload free of newlines, the only newline of a message is the one at its end |
| MrMessages.FirstWord | assign8/mr-messages.cc:68-70 | the word `>>` extracts is the longest prefix without white space |
| MrMessages.ReceiveLine | assign8/mr-messages.cc:64-89 | a received line gives `Unknown` and false exactly when its first word is no keyword; otherwise the keyword's kind, and true exactly for the four kinds with a payload; a message without a payload leaves the caller's payload as it was |
| MrMessages.ReceiveIgnoresSpace | assign8/mr-messages.cc:67 | white space around a received line makes no difference, since the line is trimmed first |
| MrMessages.ReceiveSent | assign8/mr-messages.cc:43-58 | round trip: receiving what `sendJobStart`, `sendJobSucceeded` or `sendJobFailed` (or `sendJobInfo`) wrote yields the same kind, true and the trimmed payload; when the payload is only white space, `getline` fails and the caller's payload is kept, trimmed |
| MrMessages.ReceiveSentBare | assign8/mr-messages.cc:39-41 | round trip: receiving what `sendWorkerReady` or `sendServerDone` wrote yields that kind and false, the payload untouched |
| MrMessages.ReceiveJobInfo | assign8/mr-messages.cc:47-50 | `sendJobInfo` delivers "Worker at <host>: <info>", trimmed, as the payload of a `JOB_INFO` message |
| MrMessages.ReceiveUnknown | assign8/mr-messages.cc:71-75 | a line whose first word is not a keyword is reported as `Unknown`, with false and the payload untouched |
| MrMessages.Connection.SendWorkerReady | assign8/mr-messages.cc:39-41 | the stream gains the `WORKER_READY` line and nothing else changes |
| MrMessages.Connection.SendJobStart | assign8/mr-messages.cc:43-45 | the stream gains `JOB_START`, a space, the chunk file and a newline |
| MrMessages.Connection.SendJobInfo | assign8/mr-messages.cc:47-50 | the stream gains `JOB_INFO Worker at <host>: <info>` and a newline |
| MrMessages.Connection.SendJobSucceeded | assign8/mr-messages.cc:52-54 | the stream gains `JOB_SUCCEEDED`, a space, the chunk file and a newline |
| MrMessages.Connection.SendJobFailed | assign8/mr-messages.cc:56-58 | the stream gains `JOB_FAILED`, a space, the chunk file and a newline |
| MrMessages.Connection.SendServerDone | assign8/mr-messages.cc:60-62 | the stream gains the `SERVER_DONE` line and nothing else changes |
| MrMessages.Connection.ReceiveMessage | assign8/mr-messages.cc:64-89 | one line is consumed from the incoming stream and the outcome is that of receiving that line |
| MrServer.DefaultPort | assign8/mapreduce-server.cc:152-156 | the default port lies in [1024, 65534] and is the hash of "user@host" modulo 65535 - 1024, moved up by 1024 |
| MrServer.DefaultPortOnto | assign8/mapreduce-server.cc:152-156 | every port of [1024, 65534] is the default for some hash |
| MrServer.ExtractPortNumber | assign8/mr-utils.h:12-20 | a port argument is accepted exactly when the base-0 `strtol` uses up all of it and the number lies in [1, 65535], and then that number is the port; trailing text is refused as malformed |
| MrServer.ParseNumberInRange | assign8/mr-utils.h:22-30 | a value is accepted exactly when the base-0 `strtol` uses up all of it and the number lies in [low, high], and then that number is the result |
| MrServer.EnsureDirectoryExists | assign8/mr-utils.h:32-41 | a path `stat` cannot find and a path that is not a directory are errors; an accepted path is returned absolute, unchanged when it starts with a slash and otherwise prefixed by the working directory and a slash |
| MrServer.ApplyToServer | assign8/mapreduce-server.cc:270-288 | each of the seven keys sets only its own member: the executables are taken as given, a worker count is the value `parseNumberInRange` accepts in [1, 32] or its error, a path is the absolute path `ensureDirectoryExists` gives or its error, and any other key changes nothing |
| MrServer.ReadConfigOutcome | assign8/mapreduce-server.cc:223-260 | a configuration file is accepted exactly when the key loop reads it to its end with all seven keys supplied, and then both worker counts come from it and lie in [1, 32]; missing keys are reported exactly when the loop reads to the end without some of the seven |
| MrServer.KeyLoopKeys | assign8/mapreduce-server.cc:231-252 | the key loop only adds keys, all of them among the seven, the worker counts it has read lie in [1, 32], and it never reports missing keys itself |
| MrServer.KeyLoopKeyErrors | assign8/mapreduce-server.cc:233-249 | every key error of the loop names an unrecognised non-empty word or a repeated one of the seven |
| MrServer.ReadConfigKeyErrors | assign8/mapreduce-server.cc:233-249 | an unrecognised key is a non-empty word other than the seven, and a key reported twice is one of the seven |
| MrServer.ScanFlags | assign8/mapreduce-server.cc:94-131 | the mapper after the option scan is the initial one or the argument of some `--mapper` flag |
| MrServer.ScanFlagsOnce | assign8/mapreduce-server.cc:98-113 | a scan that succeeds has no `--mapper` after a non-empty mapper and no `--reducer` after a non-empty reducer, so each is given at most once |
| MrServer.FirstNotExecutable | assign8/mapreduce-server.cc:188-206 | no program is refused exactly when all four are executable; a refused one is one of the four and is not executable |
| MrServer.ConfigureAccepted | assign8/mapreduce-server.cc:81-143 | an accepted configuration names a mapper and a reducer, all four programs are executable, both worker counts lie in [1, 32], and neither `--mapper` nor `--reducer` followed a non-empty one |
| MrServer.ErrorOf | assign8/mapreduce-server.cc:81-143 | there is no error exactly when the outcome is a success, and otherwise the error is the one thrown |
| MrServer.ReducerPatternsDistinct | assign8/mapreduce-server.cc:516-518 | the reducer patterns for two different numbers differ |
| MrServer.PatternNumber | assign8/mapreduce-server.cc:517 | the number a reducer pattern was made from is read back from between its fixed parts |
| MrServer.MapReduceServer.constructor | assign8/mapreduce-server.cc:46-49 | the server starts with the default port for its user and host, verbose on, map-only off and no patterns queued or out |
| MrServer.MapReduceServer.ParseArgumentList | assign8/mapreduce-server.cc:81-143 | the options are scanned and then checked in the source's order: too many operands, a missing mapper, reducer or configuration file, the configuration file's keys and values, then the four executables; the first failure is thrown, and the members are set only when every check passes |
| MrServer.MapReduceServer.Adopt | assign8/mapreduce-server.cc:81-143 | the members are set from the outcome only when every check passed, and are left as they were otherwise |
| MrServer.MapReduceServer.ConfigureServer | assign8/mapreduce-server.cc:133-142 | the checks after the option scan, each in turn, reach the outcome that `Configure` describes |
| MrServer.MapReduceServer.ScanArguments | assign8/mapreduce-server.cc:94-131 | the `getopt_long` loop reaches the outcome that `ScanFlags` describes |
| MrServer.MapReduceServer.InitializeFromConfigFile | assign8/mapreduce-server.cc:223-260 | the key loop reaches the outcome that `ReadConfig` describes, and an accepted file sets both worker counts in [1, 32] |
| MrServer.MapReduceServer.SurfaceNextFilePattern | assign8/mapreduce-server.cc:469-475 | on an empty queue it returns false and changes nothing; otherwise it returns true and the old front, which moves from the queue to the patterns out; with distinct patterns the queued and out patterns together are unchanged; every other member of the server is unchanged |
| MrServer.MapReduceServer.MarkFilePatternAsProcessed | assign8/mapreduce-server.cc:483-490 | only that pattern leaves the patterns out, and the queue is untouched; every other member of the server is unchanged |
| MrServer.MapReduceServer.RescheduleFilePattern | assign8/mapreduce-server.cc:502-510 | the pattern moves from the patterns out to the back of the queue; for a pattern that was out, the queued and out patterns together are unchanged; every other member of the server is unchanged |
| MrServer.MapReduceServer.StageReducerPatterns | assign8/mapreduce-server.cc:515-518 | the queue becomes exactly the patterns `intermediatePath/*.<i>.mapped`, i zero-padded to five digits, for i from 0 below numMappers times numReducers, in order and with no repeats; every other member of the server is unchanged |
| MrServer.ReducerQueue | assign8/mapreduce-server.cc:516-518 | the loop builds one pattern per number below n, in order, with no repeats |
| MrServer.PendingPop | assign8/mapreduce-server.cc:470-474 | moving the front pattern of the queue to the patterns out keeps the multiset of queued and out patterns, and keeps them distinct |
| MrServer.PendingPush | assign8/mapreduce-server.cc:504-505 | moving a pattern from those out to the back of the queue keeps the multiset of queued and out patterns, and keeps them distinct |
| GroupByKey.ParseRecord | assign8/group-by-key.py:8 | no field of a stripped line split at single spaces holds a space |
| GroupByKey.ParseRecordOfPair | assign8/group-by-key.py:8 | a line written as a key, a space and a value, neither holding white space, reads back as that key and value |
| GroupByKey.ParseRecordEmptyKey | assign8/group-by-key.py:8 | a line with an empty key is stripped to a single field, which becomes the key |
| GroupByKey.Records | assign8/group-by-key.py:6-8 | the generator yields one record per line read, the fields of that line in order |
| GroupByKey.RunLength | assign8/group-by-key.py:12 | the run at the front of the records is the longest prefix with that key |
| GroupByKey.GroupBy | assign8/group-by-key.py:12 | `groupby` yields no group exactly for no records, and the first group has the first record's key |
| GroupByKey.GroupByRuns | assign8/group-by-key.py:12 | `groupby` cuts the records, in order, into non-empty groups each sharing its key, neighbouring groups having different keys |
| GroupByKey.RunPartitionUnique | assign8/group-by-key.py:12 | any cut of the records into maximal runs of one key is the one `groupby` makes |
| GroupByKey.SortedInputDistinctKeys | assign8/group-by-key.py:12 | for input sorted by key, the groups' keys are strictly increasing, so each key forms a single group |
| GroupByKey.Values | assign8/group-by-key.py:13 | unpacking `k, v` succeeds exactly when every record has one field after its key, and then gives those fields in order |
| GroupByKey.GroupLineShape | assign8/group-by-key.py:13-14 | a group prints a line exactly when each of its records holds two fields; the line is the key, a space and the values sorted, each kept as often as it occurs, separated by single spaces |
| GroupByKey.GroupLineFields | assign8/group-by-key.py:13-14 | a printed line split at spaces gives back the key followed by the sorted values, when no field holds a space |
| GroupByKey.Emit | assign8/group-by-key.py:12-14 | the lines are printed in group order, and printing stops with an error at the first group it cannot unpack, exactly when there is one |
| GroupByKey.GroupLines | assign8/group-by-key.py:12-14 | each group gives its own line or failure, in order |
| GroupByKey.GroupByKeyOutcome | assign8/group-by-key.py:10-14 | the script prints the groups' lines in order and fails exactly when some group holds a record without exactly two fields, after printing the groups before the first such one |
| GroupByKey.EmitFails | assign8/group-by-key.py:13-14 | printing the groups fails exactly when one of them holds a malformed record |
| GroupByKey.SortedInputOneLinePerKey | assign8/group-by-key.py:10-14 | input sorted by key, each line a key and one value, prints one line per key without failing, in strictly increasing key order |
| GroupByKey.GroupMember | assign8/group-by-key.py:12 | every record inside a group is one of the input records, so it has the shape every input record has |
| GroupByKey.FlattenMember | assign8/group-by-key.py:12 | each record of a group lies in the flattened groups |
| TraceSystemCalls.TypeName | assign3/trace-system-calls.cc:28-37 | each parameter type is written as one non-empty word without white space |
| TraceSystemCalls.ReadTypeNames | assign3/trace-system-calls.cc:39-53 | a type read is one whose name is the word extracted, and any word naming none of the three types reads as the unknown type |
| TraceSystemCalls.TypeRoundTrip | assign3/trace-system-calls.cc:28-53 | every type written reads back as that type |
| TraceSystemCalls.NormalizeType | assign3/trace-system-calls.cc:173-177 | a C parameter type always normalises to one of the three known kinds |
| TraceSystemCalls.NormalizeTypeCases | assign3/trace-system-calls.cc:173-177 | the two C string types are strings; otherwise `unsigned long` and any type holding a '*' are pointers; every other type is an integer, each case both ways |
| TraceSystemCalls.MacroHead | assign3/trace-system-calls.cc:156 | a matched macro head names an argument count of at most 6 and ends just after its '(' |
| TraceSystemCalls.NameEnd | assign3/trace-system-calls.cc:156 | the name group `[^,)]+` is the longest run after the '(' holding neither ',' nor ')' |
| TraceSystemCalls.NameAndCount | assign3/trace-system-calls.cc:157-165 | a macro that matches yields a non-empty name free of ',' and ')' and an argument count of at most 6 |
| TraceSystemCalls.MacroPieces | assign3/trace-system-calls.cc:189 | the text after the macro's first '(' splits at its commas into at least one piece |
| TraceSystemCalls.ArgumentTypes | assign3/trace-system-calls.cc:187-201 | arguments that match give exactly one type per parameter, taken from every other piece, trimmed and normalised |
| TraceSystemCalls.MacroSignature | assign3/trace-system-calls.cc:230-240 | a macro declares a signature of at most six parameters |
| TraceSystemCalls.SignatureStepSpec | assign3/trace-system-calls.cc:230-240 | a macro for a known system call without a signature yet adds the one it declares, any other macro changes nothing, and an assertion fails exactly when the macro does not match or its arguments do not |
| TraceSystemCalls.ProcessKeeps | assign3/trace-system-calls.cc:230-240 | processing macros keeps every signature already known and adds signatures only for system calls the names table lists |
| TraceSystemCalls.FirstDefinitionWins | assign3/trace-system-calls.cc:234-239 | a system call that gained a signature was declared by some macro, and its signature is the one declared by the first macro naming it |
| TraceSystemCalls.NotDeclaredBefore | assign3/trace-system-calls.cc:234-239 | a known system call left without a signature was declared by none of the macros processed |
| TraceSystemCalls.UnknownNamesIgnored | assign3/trace-system-calls.cc:234-235 | a system call the names table does not list never gets a signature |
| TraceSystemCalls.DeclarationParsed | assign3/trace-system-calls.cc:156-240 | a well-formed `SYSCALL_DEFINEn(name, type1, arg1, ...)` on one line passes the line filter, declares its trimmed name and yields one normalised type per (type, name) pair, taken from the type |
| TraceSystemCalls.ArgumentsOfPieces | assign3/trace-system-calls.cc:187-201 | the argument pattern takes parameter i's type from piece 2i + 1 of a well-formed declaration |
| TraceSystemCalls.Ingest | assign3/trace-system-calls.cc:211-220 | the macro read holds a ')' and the read position only moves forward |
| TraceSystemCalls.IngestEntireMacro | assign3/trace-system-calls.cc:211-220 | the loop returns the macro and the read position that `Ingest` describes: whole lines appended without their newlines until the macro holds a ')' |
| TraceSystemCalls.NextLineCloses | assign3/trace-system-calls.cc:213-216 | while the macro has no ')', a next line exists and a ')' still lies ahead, so the loop makes progress |
| TraceSystemCalls.IngestStopsAtFirstParen | assign3/trace-system-calls.cc:211-220 | reading stops at the end of the line holding the first ')' from the read position on, and the macro is the first line followed by everything read, its newlines dropped |
| TraceSystemCalls.LineRead | assign3/trace-system-calls.cc:214-216 | the text one `getline` consumes, newline dropped, is the line it returns |
| TraceSystemCalls.ScanFrom | assign3/trace-system-calls.cc:272-286 | every macro read from a kernel source file holds its closing ')' |
| TraceSystemCalls.ScanOneLine | assign3/trace-system-calls.cc:277-284 | a line that starts a macro and holds its ')' is the next macro read, and reading goes on after its newline |
| TraceSystemCalls.ScanMacroLine | assign3/trace-system-calls.cc:277-284 | a line that starts a macro and holds its ')' is a macro on its own |
| TraceSystemCalls.DeclarationLine | assign3/trace-system-calls.cc:271-281 | a well-formed declaration is one line that the filter accepts and that holds its closing ')' |
| TraceSystemCalls.AllMacros | assign3/trace-system-calls.cc:334-345 | the macros of a list of files are those of the first file followed by those of the rest |
| TraceSystemCalls.ProcessMacrosAppend | assign3/trace-system-calls.cc:334-345 | processing the macros of one batch of files and then of another is processing them all in order |
| TraceCache.ReadWord | assign3/trace-system-calls.cc:297-305 | `>>` skips white space and reads the longest run of other characters; a read that finds only white space fails, with an empty word and the text used up |
| TraceCache.Stoi | assign3/trace-system-calls.cc:303 | a count `stoi` accepts fits an `int` and is the value `strtol` reads in base 10 |
| TraceCache.ReadTypes | assign3/trace-system-calls.cc:303-307 | the count's loop reads exactly that many types, none for a count that is not positive |
| TraceCache.LoadStep | assign3/trace-system-calls.cc:296-308 | each pass of the loading loop that goes on has used up some of the cache, so the loop ends |
| TraceCache.StepKeeps | assign3/trace-system-calls.cc:300-307 | a pass only adds to entries: each keeps its old types, followed by any read for it |
| TraceCache.LoadKeeps | assign3/trace-system-calls.cc:293-310 | loading never drops an entry: each ends up with its old types followed by those read for it |
| TraceCache.LoadBlank | assign3/trace-system-calls.cc:296-299 | an empty cache, or one holding only white space, loads nothing |
| TraceCache.BadCount | assign3/trace-system-calls.cc:301-303 | a line whose count is not a number makes `stoi` throw |
| TraceCache.StepThrows | assign3/trace-system-calls.cc:301-303 | a pass whose count `stoi` cannot read throws, whatever follows |
| TraceCache.CacheRoundTrip | assign3/trace-system-calls.cc:293-325 | loading what `cacheSignatures` wrote into an empty table gives back the signatures written, when every name is one word and every count fits an `int` |
| TraceCache.LoadLines | assign3/trace-system-calls.cc:293-325 | the lines written for distinct names none of which is loaded yet load as those entries |
| TraceCache.LoadEntry | assign3/trace-system-calls.cc:296-307 | one line of the cache, after any white space, adds its entry and leaves the newline that ends it |
| TraceCache.CountReadBack | assign3/trace-system-calls.cc:303-321 | the count written reads back as the size |
| TraceCache.TypesOfWords | assign3/trace-system-calls.cc:303-307 | reading that many types where that many words lie gives each word's type, in order, and uses up everything before what follows the words |
| TraceCache.SpacedWords | assign3/trace-system-calls.cc:321 | words written each after a space, followed by nothing or by white space, are the words `>>` reads back one after another |
| TraceCache.ReadTypesOf | assign3/trace-system-calls.cc:303-322 | the type words written read back as the types, using up exactly what was written |
| TraceCache.ReadAllNames | assign3/trace-system-calls.cc:28-53 | reading the word of each type gives back the types |
| TraceCache.FillAll | assign3/trace-system-calls.cc:320-323 | writing entries over a table sets exactly the entries named and keeps the others |
| TraceCache.SortedKeysDistinct | assign3/trace-system-calls.cc:320 | a `std::map` iterates each name once, in increasing order |
| TraceCompile.DefineOf | assign3/trace-system-calls.cc:105 | a line the define pattern matches yields a name of word characters and a non-empty run of digits |
| TraceCompile.DefineLine | assign3/trace-system-calls.cc:105 | `#define __NR_<name> <n>` is read as that name and the digits of n |
| TraceCompile.Defines | assign3/trace-system-calls.cc:119-130 | every name the header's matching lines give is made of word characters |
| TraceCompile.TablesKeys | assign3/trace-system-calls.cc:126-129 | a number is in the numbers table exactly when it was there or some define gives it, and likewise a name in the names table |
| TraceCompile.TablesLastWins | assign3/trace-system-calls.cc:128-129 | the last define of a number names it, and the last define of a name numbers it |
| TraceCompile.TablesInverse | assign3/trace-system-calls.cc:128-129 | defines that repeat no name and no number give tables that undo each other |
| TraceCompile.KeyLinesFirst | assign3/trace-system-calls.cc:320-323 | the cache lines start with the line of the least name, in the order a `std::map` iterates in |
| TraceCompile.SystemCallData.constructor | assign3/trace-system-calls.cc:375-377 | the three tables start empty |
| TraceCompile.SystemCallData.CollectSystemCallNumbers | assign3/trace-system-calls.cc:114-131 | the loop over the header's lines succeeds exactly when `stoi` accepts every number, and then records each matching line's number for its name and its name for its number, in order; the signatures are untouched |
| TraceCompile.SystemCallData.ProcessSystemCallArguments | assign3/trace-system-calls.cc:187-201 | the loop over the parameters succeeds exactly when the argument pattern matches, and then yields the types that `ArgumentTypes` describes |
| TraceCompile.SystemCallData.ProcessSystemCallSignature | assign3/trace-system-calls.cc:230-240 | the signatures change as `SignatureStep` describes, and an assertion fails exactly where it says |
| TraceCompile.SystemCallData.ProcessSignaturesWithinKernelSourceFile | assign3/trace-system-calls.cc:272-286 | the file's macros, read in order, are processed one after another as `ProcessMacros` describes |
| TraceCompile.SystemCallData.ProcessAllKernelSourceFiles | assign3/trace-system-calls.cc:334-345 | the files are processed one after another, as processing all their macros in order |
| TraceCompile.SystemCallData.LoadSignaturesFromCache | assign3/trace-system-calls.cc:293-310 | false exactly when the cache cannot be opened, changing nothing; otherwise the entries are loaded as `LoadFrom` describes, and `stoi` throws exactly when a count cannot be read |
| TraceCompile.SystemCallData.CacheSignatures | assign3/trace-system-calls.cc:318-325 | the text written is one line per system call, `name count type...`, names in increasing order |
| TraceCompile.SystemCallData.CollectSystemCallSignatures | assign3/trace-system-calls.cc:356-367 | unless rebuilding, a cache that opens is loaded; otherwise the kernel's macros are processed and the cache is written |
| TraceCompile.SystemCallData.CompileSystemCallData | assign3/trace-system-calls.cc:375-382 | a table that is not empty is refused and nothing changes; otherwise the numbers and names come from the header and the signatures are collected, as `Compile` describes |
| TraceCompile.ProcessMacrosCons | assign3/trace-system-calls.cc:230-240 | processing a macro ahead of others is one step and then the rest, and a failed assertion stops everything |
| TraceCompile.IdentifierIsWord | assign3/trace-system-calls.cc:105 | a name made of word characters is a single word of a cache line |
| TraceCompile.ProcessedCacheable | assign3/trace-system-calls.cc:318-325 | the signatures gathered from the kernel sources, over the header's names, can be written to the cache and read back |
| TraceCompile.RebuiltCacheReloads | assign3/trace-system-calls.cc:293-325 | a rebuild writes a cache that loads back, into empty tables, as exactly the signatures it compiled |
| TraceCompile.CacheIsTransparent | assign3/trace-system-calls.cc:356-367 | compiling again from the cache a rebuild wrote, whatever the kernel sources are then, gives the same tables |
| TraceCompile.SignaturesAreKnownCalls | assign3/trace-system-calls.cc:234-235 | without a cache to read, only system calls the header defines get signatures |
| TraceCompile.CompiledTablesInverse | assign3/trace-system-calls.cc:375-382 | a header whose defines repeat no name and no number compiles into number and name tables that undo each other |
| TraceOptions.FlagEnd | assign3/trace-options.cc:16 | the flags are the arguments from the given one on that start with "--", up to the first that does not or the end of the vector |
| TraceOptions.ProcessCommandLineFlags | assign3/trace-options.cc:14-24 | the call succeeds exactly when every flag is "--simple" or "--rebuild", and then returns how many flags there were, repeats included, each setting switched on exactly when its flag occurs (never off); otherwise the first unknown flag throws its message, after the flags before it have taken effect |
| TraceOptions.ScanStopsAtCommand | assign3/trace-options.cc:16 | the scan stops at the first argument that is not a flag, so a later "--rebuild" belongs to the traced command |
| StshParseUtils.ParseNumber | assign4-clean/stsh-parse-utils.cc:12-18 | a NULL argument throws the usage text, every failure carries the usage text, and a number is returned only when base-10 `strtol` reads it and uses up the argument's text up to its first NUL |
| StshParseUtils.ParsePrinted | assign4-clean/stsh-parse-utils.cc:15-17 | the decimal text of a number up to `LONG_MAX` reads back as that number |
| StshParseUtils.ParseNegative | assign4-clean/stsh-parse-utils.cc:16 | a negative number is refused with the usage text |
| StshParseUtils.ParseTrailing | assign4-clean/stsh-parse-utils.cc:16 | a number followed by a character that is neither a digit nor the terminating NUL is refused with the usage text |
| StshParseUtils.ParseStopsAtNul | assign4-clean/stsh-parse-utils.cc:15-16 | a number followed by a NUL is accepted whatever comes after the NUL, since `*end` is then the terminator |
| StshParseUtils.ParseEmpty | assign4-clean/stsh-parse-utils.cc:14-17 | the empty argument reads as 0, because `strtol` leaves its end on the terminator |
| StshParseUtils.ParseLeadingSpace | assign4-clean/stsh-parse-utils.cc:15-17 | leading white space, which `strtol` skips, is accepted |

## Left out

- Concurrency: the thread pools, locks and semaphores of the news aggregator and the MapReduce server are not modelled. The aggregator runs one feed's task at a time, in any order of the feeds (`FeedsToArticles` holds for every order), and runs a feed's articles one after another in the feed's order. Under threads the tasks interleave, and which task claims a URL first depends on the schedule. The model fixes that winner by the order it runs the tasks in, so with threads the set of articles that win their URLs can differ from every run of the model. For example, two articles of one feed with the same URL and titles T1 and T2 can end filed under T2 where the model files them under T1. Likewise, two feeds that both list the same two article URLs can split those articles between themselves in any way. `NewsAggregator.RecordAllOrderFree` shows only that the articles that did win their URLs merge into the same entries whatever order they arrive in, and `RssIndex.AddAllCommutes` that the index adds commute.
- Networking, sockets, `ssh`/`system` and the spawning of workers are not modelled, nor is the server's request loop `handleRequest`. Their effect on the pattern queue is the methods `SurfaceNextFilePattern`, `MarkFilePatternAsProcessed` and `RescheduleFilePattern`.
- Processes: the `find` subprocess that lists the kernel source files is replaced by the list of those files' texts. `waitpid`, `sleep` and the messages written to `cout` are left out.
- Randomness: `random_shuffle` only chooses which machine runs a worker, so it is left out.
- Foreign libraries: SHA-1 and `std::hash<string>` are function parameters with no properties assumed. libxml's RSS and HTML parsing is replaced by the titles, URLs and token lists it would give.
- Regular expressions: the four patterns of `trace-system-calls.cc` are stated as the matches they force (a fixed head, a maximal run, pieces split at commas), not by a regular-expression engine.
- Undefined behaviour is made an explicit error. An inode number below 1, or a block index outside `i_addr` or an indirect block, returns -1 where the C code would read out of bounds. The two integers `>>` leaves unassigned in `response.cc` are fixed as 0, on the two lines below.
- `V6Inode.ReadSector`: `diskimg_readsector` returns -1 only when `lseek` fails. A sector past the end of the image gives 0 bytes, a truncated image a short count, and every caller (`inode.c`, `file.c`) tests only for a negative result, so it carries on with a buffer that is unfilled or partly filled and whose contents are indeterminate. The model treats an absent sector, or one of fewer than 512 bytes, as a failed read, which the callers report as -1.
- `Response.StatusLine`: when only white space, or nothing, follows the protocol word ("HTTP/1.1", "HTTP/1.1 ", the empty line at the end of the stream), `iss >> code` fails before converting and leaves `code` indeterminate. The model gives code 0, and that 0 is what `HTTPResponse.IngestResponseHeader` stores.
- `Response.TTL`: when "max-age=" ends the `Cache-Control` value, `iss >> maxAge` reads nothing and `getTTL` returns an indeterminate value. The model gives 0, and so does `HTTPResponse.GetTTL`.
- `Response.HTTPResponse.constructor`: `response.h` declares `int code` and nothing initialises it, so a new response's code is indeterminate. The model's constructor takes that starting value as a parameter and promises nothing else about it.
- A directory entry's 14-byte `d_name` is compared as a name of at most 14 bytes that ends at its first NUL, as `strncmp` over 14 bytes would compare it; `strcmp` on an entry without a NUL is undefined.
- `V6Pathname`: a path component longer than 13 characters, which overflows the 14-byte buffer of `pathname.c`, is excluded by a precondition.
- `V6Pathname.Lookup`: the empty path is excluded by a precondition. The code drops the first character of every path other than "/" unchecked, and for the empty path that reads past its terminator. Like the code, the model drops that first character whatever it is.
- `V6Pathname.Lookup` and `V6Directory.FindEntry` take the path or name as the bytes before its terminating NUL. A sequence with a NUL inside it is not cut there, as C's string functions would cut it; for "/a\0b" the C code looks up `a`.
- `TraceSystemCalls.IngestEntireMacro`: a macro whose ')' never comes would make the program read past the end of the file forever. The method requires a ')' ahead; `ScanFrom` gives None for such a file. `TraceCompile.SystemCallData.ProcessSignaturesWithinKernelSourceFile`, `CollectSystemCallSignatures` and `CompileSystemCallData` require every scanned file's macros to close. So they also exclude a file where an `assert` fails on an earlier macro before the unterminated one; the program aborts there instead of looping, and the model does not describe that abort.
- The program's `assert`s in `trace-system-calls.cc` abort it. The model reports them as a None or a false result and does not describe the tables at the moment of the abort.
- `TraceCompile.SystemCallData.LoadSignaturesFromCache`: the inner loop that reads a count's types word by word is stated as one call to `TraceCache.ReadTypes`, which reads the same words.
- A system header that fails to open is a `header` of None for `TraceCompile.SystemCallData.CompileSystemCallData`, and its `MissingFileException` is an outcome, not an exception.
- A kernel source file that fails to open gives no lines in the source, so it is the empty text in the model.
- Exceptions (`TraceException`, `STSHException`, `MapReduceServerException`) are `Failure` values carrying the data of their message. Only `UnrecognizedFlag` builds the message text itself.
- The argument vectors end at the end of the sequence where C has its NULL terminator.
- The `strtol` overflow convention is modelled: values beyond the `long` range clamp to `LONG_MIN` or `LONG_MAX`. `errno` is not.
- The proxy's request, payload, cache, request-handler and scheduler classes are implemented outside the modelled core (`payload.cc`, `cache.cc`, `request.cc`, `request-handler.cc`, `scheduler.cc` in the second copy of the assign7 proxy) and are left out. `HTTPResponse::setPayload`, `ingestPayload` and the payload part of `operator<<` delegate to the payload class, so the response is modelled without its payload. The model also drops what `setPayload` does to the header: `HTTPPayload::setPayload` calls `addHeader("Content-Length", int(payload.size()))`, so a real response gains a `content-length` entry holding the payload's size. The modelled header never gains that entry.
- Logging and printing to `cout` beyond the path printer are left out, along with the test drivers, the assign5 demonstration programs and the shell `stsh` itself beyond `parseNumber`.
- `Response.PermitsCaching`: its own `ensures` gives one direction (caching implies a `Cache-Control` header and a positive TTL). The exact condition is split over `Response.DirectiveForbidsCaching` and `Response.CachingFollowsTTL`.
