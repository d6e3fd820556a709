# Verified models of libbu++ components

libbu++ is a C++ utility library. Several of its components keep intricate state behind a simple meaning: a block
store that stands for many flat byte streams, a hash table that stands for a finite map, a printer and a parser that
stand for a tree. Each module here models one component, in the form its source has, and proves what the component is
for. Classes of the source are classes, with the same fields and loops; beside each stands a specification on values,
and the methods are proved against it.

| Component | Files | Main results |
|---|---|---|
| Myriad block store | `Store`, `BlockMath`, `MyriadLayout`, `MyriadMeta`, `MyriadHeader`, `MyriadFormat`, `Myriad`, `MyriadReopen`, `MyriadHandles`, `MyriadClient`, `MyriadHazard` | any run of operations on any number of streams is one on flat files; the blocks are always partitioned; what is synced comes back; the format byte by byte |
| Hash table | `HashTable`, `HashRun`, `HashCrowd`, `Hash` | every operation is that of a finite map, across nested rehashes; when one ends, and that thirteen keys of one hash code are the most |
| TAF text format | `TafSyntax`, `TafRoundTrip`, `TafSpelling`, `TafStream`, `Taf` | printing and parsing is the identity exactly for trees whose comments do not hold their own end; however a tree is written by hand it is read; a group cut off anywhere is reported as such |
| Predictive parser | `Grammar`, `ParserRun`, `Parser` | what is consumed is derived from the root; a parse makes all the moves there are, and there is one way to move |
| SynchroQueue | `SynchroItems`, `SynchroQueue` | first in, first out, no lost wakeup and no deadlock in every interleaving |
| Base64, SHA-1, MD5 | `Base64Codec`, `Base64`, `HashBlocks`, `Sha1`, `Md5`, `Sha1Known`, `Md5Known` | the answer does not depend on how the data was cut up; the digests of "abc" are those of the standards |
| Heap, list sort, MiniCron | `HeapOrder`, `Heap`, `LinkedList`, `MiniCron` | a least item comes first; a sorted permutation; every job runs exactly at its scheduled times |
| SharedCore | `SharedCore` | counters count handles; no handle sees another one's change |
| Telnet, QueueBuf, Formatter | `TelnetSpec`, `Telnet`, `QueueBuf`, `Formatter` | fragmentation does not matter exactly while no call but the last throws; a byte queue; printed integers are read back |

`Bytes`, `Numbers` and `Wrappers` hold what several modules share. `dafny verify dfyconfig.toml` checks everything.

## Where the code does less than one may expect

What is false of the code is proved so, by a lemma or by an exact condition in a contract.

- Myriad, loading: the loader reads the header through the blocks it has read the ids of. An image loads exactly when
  its header uses no more blocks than a fresh one, or these leave room for one more block id (`Loadable`), which can be
  told before the sync (`WillLoad`). With the minimum of 30 bytes a block that `src/stable/myriad.h:72-74` names this
  always holds. A fresh store with one stream created in it comes back exactly when there is room for that id, so with
  16-byte blocks it is lost (`OneStreamReopens`).
- Myriad, writing past the end: the stream grows by the length of the data only, behind the bytes that were there. The
  law of a file for the new size holds exactly for a write that starts at or before the end (`MyriadStream.Write`).
- Myriad, shrinking and deleting: a block given back may still be in memory, from where it is written back later. The
  state stays valid exactly when none is (`Myriad.SetStreamSize`, `Myriad.DeleteStream`); for a resize through a handle
  that is when the handle's block is among the first ones that the stream keeps (`MyriadStream.SetSize`). Otherwise the
  next stream can take the block, and what it stores is overwritten: a run with 16-byte blocks is `Overwritten`.
- Myriad, `createStreamWithId`: an id in use is not reported, because the exception is caught again. The state stays
  sound exactly for a fresh positive id, or for the last id when no block is preallocated.
- Myriad, block count: after formatting the used counter is one too high and stays so (`Drift`); after loading it is
  right.
- Hash: an operation may never return. It ends without a rehash exactly when the key is there or one of the 32 steps of
  its probe finds a free slot (`RoomEnds`, and in the contracts of `Probe`, `Insert`, `Erase`, `Lookup` and `Has`);
  otherwise whether it ends, and with which table, is a function of the slots (`Settled`). Different keys of one hash
  code go into a new table exactly when there are at most thirteen of them (`InsertCrowd`): with thirteen keys in 26
  slots, the rehash goes through 31, 11 and 23 slots and is back at 26 (`BackTo26`, `NeverEnds`). No table at all holds
  more than 32 keys of one code (`CrowdedCode`).
- TAF: behind a hexadecimal escape the reader goes on with the next byte exactly when neither the byte it stands for nor
  its second digit is a closing brace (`EscapeKeepsNextByte`); an escaped brace makes it lose one
  (`EscapedBraceLosesAByte`). A reader can read only one group (`NoSecondGroup`).
- Parser: it is a top-down parser, although its header says LR(1). A root that the first token does not start is not
  reported: exactly then the parse ends normally having taken nothing (`Parser.Parse`). Empty productions and those that
  begin with a reduction are never selected, so that a token can be rejected wrongly (`EmptyProductionIsPassedOver`). A
  selection that ends, ends within as many nested calls as there are non-terminals (`SelectionEnds`), and without left
  recursion every one does (`WithoutLeftRecursion`).
- SynchroQueue: a blocking dequeue can return nothing although nobody was cancelled: another consumer may take the
  value between the signal and the wakeup (`BlockingDequeueMayReturnNothing`). It returns nothing exactly when all that
  was enqueued has been dequeued by the time it has the lock again (`ReturnsNothingExactly`), and then it was not woken
  by a signal or somebody dequeued since (`WhyNothing`). The only consumer of a queue that nobody unblocks, woken by
  signals only, always gets a value (`SoleConsumerGetsValues`).
- Base64: a second stop, and so the destructor after a stop, writes the padded group once more (`FinalOnce`).
- QueueBuf: a look past the end after a skip gives more bytes than there are unless the last block is full
  (`PeekIsExact`).
- Formatter: the minimum of a signed type is printed with characters below the digits and read back as 0
  (`SignedRoundTrip`). A radix outside of 2 to 36 prints nothing, which is what `Fmt::bin` asks for.
- Telnet: for a window size in less than four bytes the string throws out of the decoder, with the end mark unread and
  the payload kept (`SubnegotiationDelivered`). Then it matters how the input was cut up (`ShortWindowLosesALine`);
  input can be cut up at will exactly when it holds no such window size (`AllFragmentations`). A demand to stop an
  option is answered with the same demand, where every other answer is the one of RFC 854 (`AnswersAllButDont`).

## Model

| member | source | states |
|---|---|---|
| BlockMath.BlkDivLeast | src/stable/myriad.cpp:24-26 | the number of blocks is the least one that holds the bytes |
| MyriadHeader.SizingStep | src/stable/myriad.cpp:213-217 | the header-sizing loop grows in every round and never passes the least count that fits |
| MyriadHeader.BootBlocks | src/stable/myriad.cpp:206-217 | the loop ends with the least number of blocks that hold a header listing that many blocks, and 30 bytes besides: for blocks of 26 to 29 bytes it is two, though one would do |
| MyriadHeader.RoomFrom30 | src/stable/myriad.h:72-74 | at the documented minimum block size one block holds the first header, with room for one more block id |
| MyriadHeader.NoRoomAt16 | src/stable/myriad.cpp:119-135 | with 16-byte blocks the first two blocks leave no room for a third block id |
| MyriadFormat.LayoutExactly | src/stable/myriad.cpp:336-363 | a store begins with a header exactly when it begins with the bytes 0a d3 fa 84 01 20 and every number of the header is at its offset, least significant byte first |
| MyriadMeta.PartitionMeaning | src/stable/myriad.cpp:441-454 | free and owned blocks are duplicate-free, disjoint, below the block count, and every block is one or the other |
| MyriadMeta.TakeForSound | src/stable/myriad.cpp:642-652 | taking a block for a stream keeps the partition, the order of the ids, the cover of the sizes, and the counter's drift |
| MyriadMeta.GrowToSound | src/stable/myriad.cpp:681-692 | growing takes just the blocks needed, appended to one stream, and keeps all of that |
| MyriadMeta.ShrinkToKeeps | src/stable/myriad.cpp:662-678 | shrinking moves just the blocks wholly past the new end to the free list |
| MyriadMeta.FreedComeLast | src/stable/myriad.cpp:662-678 | blocks given back come last among the free ones, of which the first is taken next |
| MyriadMeta.ResizeSound | src/stable/myriad.cpp:654-695 | resizing keeps every invariant of the block arrangement |
| MyriadMeta.ResizeContents | src/stable/myriad.cpp:654-695 | resizing cuts or extends one stream's bytes and touches no other stream's |
| MyriadMeta.ResizeIdle | src/stable/myriad.cpp:662-678 | a block in memory is free after a resize exactly when the resize gave it back |
| MyriadMeta.ChunkDone | src/stable/myriadstream.cpp:164-211 | a chunk copied into one block is a write to the stream's flat bytes and to no other stream's |
| MyriadMeta.CreateContents | src/stable/myriad.cpp:368-391 | a new stream is empty and the others keep their bytes |
| MyriadMeta.DeleteSound | src/stable/myriad.cpp:465-480 | deleting a stream frees all its blocks and keeps every invariant |
| MyriadMeta.CreateWithIdSound | src/stable/myriad.cpp:393-439 | creating under an id keeps the arrangement sound exactly for a fresh positive id, or the last id without preallocation |
| MyriadLayout.PokeSplice | src/stable/myriadstream.cpp:177-204 | a copy into one block, seen by its owner, replaces or extends exactly that slice of the flat bytes |
| MyriadLayout.WroteMore | src/stable/myriadstream.cpp:134-213 | writes of consecutive chunks are one write of all of them, across any number of blocks |
| MyriadLayout.WriteRewrites | src/stable/myriad.cpp:631-640 | writing a block back changes that block of the store and no other |
| MyriadLayout.ReadIsSlice | src/stable/myriadstream.cpp:55-58 | the bytes a read gathers are the slice of the flat bytes at the position, cut off at the end |
| MyriadHeader.HeaderFitsSize | src/stable/myriad.cpp:309-363 | what is written into the header never exceeds the size computed for it |
| MyriadHeader.HeaderNeedLeast | src/stable/myriad.cpp:308-336 | the header takes the least number of blocks that lets it list all blocks, these included |
| MyriadHeader.SyncedLoads | src/stable/myriad.cpp:291-366 | whether what will be synced can be loaded, told from the streams before |
| MyriadHeader.BlockField | src/stable/myriad.cpp:346-363 | each block id of each record is found at its place in the header |
| MyriadHeader.SavedIsImage | src/stable/myriad.cpp:70-83 | a sound state whose blocks and header are written back is an image of its streams |
| MyriadHeader.SourceBlock | src/stable/myriad.cpp:155-180 | a block id read through the blocks known so far is the one that was saved |
| MyriadHeader.ReachableIsLoadable | src/stable/myriad.cpp:155-180 | a header block id out of reach means that the image is not loadable |
| MyriadHeader.LoadedSound | src/stable/myriad.cpp:182-190 | the loaded streams with every other block free are sound, and the used counter is right |
| MyriadHeader.TrimContents | src/stable/myriad.cpp:357-362 | the blocks not listed in the header hold none of a stream's bytes |
| MyriadHeader.ImageGood | src/stable/myriad.cpp:85-191 | what was loaded has a header from which it could be loaded again |
| Myriad.OthersKeepHolding | src/stable/myriadstream.cpp:156-163 | work through one handle leaves a handle on another stream with the block it holds |
| MyriadHandles.AfterWork | src/stable/myriadstream.cpp:49-216 | reading, writing and closing through one handle leave all others with what they hold |
| MyriadHandles.AfterResize | src/stable/myriad.cpp:654-695 | resizing a stream leaves every handle with what it holds, when its own one keeps its block |
| MyriadHandles.AfterCreate | src/stable/myriad.cpp:368-439 | creating a stream leaves every handle with what it holds |
| MyriadHandles.AfterDelete | src/stable/myriad.cpp:456-483 | deleting a stream without a handle leaves every handle with what it holds, and no block in memory becomes free |
| MyriadHandles.AfterSync | src/stable/myriad.cpp:70-83 | bringing the header up to date leaves every handle with what it holds |
| Store.Store.Write | src/stable/myriad.cpp:636-637 | the backing stream as bytes and a position: a write replaces or extends the bytes there |
| Myriad.Myriad.GetBlock | src/stable/myriad.cpp:599-615 | a block is loaded as the store has it, and no stream changes |
| Myriad.Myriad.SyncBlock | src/stable/myriad.cpp:631-640 | a changed block is written back, and no stream changes |
| Myriad.Myriad.ReleaseBlock | src/stable/myriad.cpp:617-629 | a block leaves memory without any stream changing |
| Myriad.Myriad.FindEmptyBlock | src/stable/myriad.cpp:441-454 | the first free block, or a new one at the end; all other blocks keep their bytes |
| Myriad.Myriad.StreamAddBlock | src/stable/myriad.cpp:642-652 | the block is appended to the stream and counted |
| Myriad.Myriad.SetStreamSize | src/stable/myriad.cpp:654-695 | only this stream is cut or extended; the state stays valid exactly when no block in memory was given back |
| Myriad.Myriad.FindStream | src/stable/myriad.cpp:585-597 | the place of the stream with this id, or an error when there is none |
| Myriad.Myriad.CreateStream | src/stable/myriad.cpp:368-391 | a fresh positive id, an empty stream behind the others, everything else unchanged |
| Myriad.Myriad.CreateStreamWithId | src/stable/myriad.cpp:393-439 | an empty stream in id order; the exact condition under which the state stays sound |
| Myriad.Myriad.DeleteStream | src/stable/myriad.cpp:456-483 | the stream is gone with its blocks free, protected and invalid ids are refused, an unknown id changes nothing |
| Myriad.Myriad.ReadRec | src/stable/myriadstream.cpp:49-110 | the bytes at the position across blocks; fails exactly when one lies in a block that is not listed |
| Myriad.Myriad.WriteChunk | src/stable/myriadstream.cpp:134-213 | one round of the write loop writes a chunk to this stream and no other |
| Myriad.Myriad.SizeHeader | src/stable/myriad.cpp:308-336 | the self-referential growth loop ends, with just the blocks that a header listing them all needs |
| Myriad.Myriad.WriteHeader | src/stable/myriad.cpp:337-363 | the header's bytes are written without taking a block and without changing another stream |
| Myriad.Myriad.UpdateHeader | src/stable/myriad.cpp:291-366 | afterwards the header stream holds the header of the current streams, in just the blocks it needs; nothing happens without a change |
| Myriad.Myriad.Sync | src/stable/myriad.cpp:70-83 | every block is written back and the header is up to date, laid out as the format has it; no other stream changes |
| Myriad.Myriad.HeaderBlocks | src/stable/myriad.cpp:206-217 | the sizing loop terminates for every block size of at least 5, with the least count for such a header and 30 bytes |
| Myriad.Myriad.Format | src/stable/myriad.cpp:193-289 | a valid store with the header alone, its bytes laid out as the format has them, the preallocated blocks free, and the used counter one too high |
| Myriad.Myriad.ReadPreamble | src/stable/myriad.cpp:90-113 | which store is refused with which error, by the bytes it begins with: other than 0a d3 fa 84, then 01, then 32 |
| Myriad.Myriad.LoadBlock | src/stable/myriad.cpp:157-179 | one block id is read, listed and counted, with the switch from the stand-in header to the real one |
| Myriad.Myriad.Load | src/stable/myriad.cpp:85-191 | an image loads exactly when it is loadable, and then gives back its ids, sizes, blocks in use, bytes and free list |
| Myriad.MyriadStream.Read | src/stable/myriadstream.cpp:49-110 | a read returns the slice at the position and changes no stream |
| Myriad.MyriadStream.Write | src/stable/myriadstream.cpp:112-216 | a write replaces or extends exactly its slice of this stream, and keeps the header good for loading; when the file law for the size holds |
| Myriad.MyriadStream.SetSize | src/stable/myriadstream.cpp:286-293 | only this stream is resized; the state stays valid and the handle usable exactly when its block is among the first ones that are kept |
| Myriad.MyriadStream.Close | src/stable/myriadstream.cpp:37-43 | dropping a handle writes its block back and changes no stream |
| MyriadReopen.Open | src/stable/myriad.cpp:29-51 | an empty store is formatted, with as many blocks as were asked for; an image is loaded; a store with other first bytes is refused |
| MyriadReopen.ImageInNumbers | src/stable/myriad.cpp:85-191 | a store is an image exactly when its header stream has the layout of the format and its blocks are owned once |
| MyriadReopen.OpenLiteral | src/stable/myriad.cpp:85-191 | a store of one block that begins with 26 given bytes is opened as one header stream of that size |
| MyriadReopen.Reopen | src/stable/myriad.cpp:29-83 | syncing and opening the store again gives the same ids in order, sizes, used blocks and bytes, exactly under a condition on the streams before |
| MyriadReopen.DocumentedSizeLoads | src/stable/myriad.h:72-74 | from the documented minimum block size on every image loads |
| MyriadReopen.SixteenFails | src/stable/myriad.cpp:155-180 | with 16-byte blocks an image loads exactly while its header takes at most two blocks |
| MyriadReopen.OneStreamReopens | src/stable/myriad.cpp:29-83 | a fresh store with one stream comes back exactly when its block size leaves room for one more block id, so not with 16 bytes |
| MyriadHazard.Overwritten | src/stable/myriad.cpp:599-695 | a run in which a resize gives back a block in memory, and the stream that takes it loses what it stored |
| MyriadClient.Client.Run | src/stable/myriad.cpp:291-695 | any interleaving of operations on any number of streams and handles, moved anywhere, does to each stream what it does to a flat file, and keeps the used counter's drift |
| MyriadClient.OthersUntouched | src/stable/myriadstream.cpp:49-236 | an operation changes no file and no position but those of the stream it is about |
| MyriadClient.ReadBack | src/stable/myriadstream.cpp:49-236 | what was written is read back from where it was written |
| MyriadClient.SaveAndReopen | src/stable/myriad.cpp:29-83 | after any run all files come back from the store, exactly under a condition that can be told before |
| HashTable.ProbedInVain | src/stable/hash.h:214-258 | a probe without a match that ends at an empty slot or after 32 steps means that the key is nowhere |
| HashTable.FillAdds | src/stable/hash.h:134-145 | filling the slot the probe ended at adds the key and keeps every live key reachable and unique |
| HashTable.EraseRemoves | src/stable/hash.h:147-158 | marking a slot deleted removes its key and no other |
| HashTable.RevalueReplaces | src/stable/hash.h:301-305 | overwriting a value changes what that key is mapped to and nothing else |
| HashTable.SizeIsCount | src/stable/hash.h:527-530 | filled less deleted slots is the number of keys |
| HashTable.AtMostProbesShareACode | src/stable/hash.h:223-230 | at most 32 live keys share a hash code |
| HashTable.CrowdedCode | src/stable/hash.h:246-254 | where 32 keys share a hash code, no table holds one more key of that code |
| HashRun.RoomEnds | src/stable/hash.h:214-258 | a probe ends without a rehash exactly when the key is there or one of its steps finds a free slot |
| HashRun.MoreFuel | src/stable/hash.h:246-254 | a run that ends, ends with the same table however much deeper rehashes may nest |
| HashRun.NextCapacityHolds | src/stable/hash.h:43-65 | the next capacity has room for every key |
| HashCrowd.Room | src/stable/hash.h:223-258 | among keys of one code there is a place for one more exactly while fewer are there than slots can be come to |
| HashCrowd.RebuiltCounts | src/stable/hash.h:312-368 | with keys of one code, how a rehash goes depends on their number alone |
| HashCrowd.ReachIs | src/stable/hash.h:223-230 | how many slots the doubling steps come to: as many as there are powers of two modulo the capacity |
| HashCrowd.NeverEnds | src/stable/hash.h:246-254 | with thirteen keys of one code in 26 slots no insertion of another one ends |
| HashCrowd.CrowdEnds | src/stable/hash.h:246-368 | keys of one code go into a new table exactly when there are at most thirteen |
| Hash.InsertCrowd | src/stable/hash.h:295-310 | the same of the table itself: the insertions end exactly for at most thirteen keys, or ten without a rehash |
| Hash.HashCore.InsertCrowded | src/stable/hash.h:214-258 | in any table with 32 keys of its hash code, no insertion of one more ends, however deep the rehashes nest |
| Hash.HashCore.CalcNextSize | src/stable/hash.h:43-65 | small again when most entries are gone, else as it is, a bit more, or double |
| Hash.HashCore.NextSize | src/stable/hash.h:249 | the capacity computed from the slots, with room for every key |
| Hash.HashCore.Scan | src/stable/hash.h:218-243 | the slot of the key when it is there, and otherwise that it is not |
| Hash.HashCore.Probe | src/stable/hash.h:214-258 | the slot of the key or the empty slot for it; a rehash on the way leaves the map unchanged; when it ends, and exactly when without a rehash |
| Hash.HashCore.Insert | src/stable/hash.h:295-310 | the map with the key set to the value; when it ends |
| Hash.HashCore.Rehash | src/stable/hash.h:312-368 | a new table with the same map and no deleted slots, even when rehashes nest; when it ends |
| Hash.HashCore.Erase | src/stable/hash.h:697-710 | the map without the key |
| Hash.HashCore.Get | src/stable/hash.h:743-762 | the value of the key or an error, exactly as the map says |
| Hash.HashCore.Lookup | src/stable/hash.h:770-787 | the same for a constant hash, though the table may be rehashed |
| Hash.HashCore.Has | src/stable/hash.h:794-800 | whether the map has the key |
| Hash.HashCore.Clear | src/stable/hash.h:733-736 | the empty map |
| Hash.HashCore.GetSize | src/stable/hash.h:527-530 | the number of keys |
| Hash.HashCore.NextPos | src/stable/hash.h:188-212 | the first live slot from a position on, or none |
| Hash.HashCore.GetEntries | src/stable/hash.h:1138-1172 | every key once, with its value |
| Hash.HashCore.Copy | src/stable/hash.h:1231-1256 | a table of its own with the same map; when it ends |
| Hash.HashCore.Equals | src/stable/hash.h:1174-1208 | equal exactly when the maps are |
| TafRoundTrip.StringAt | src/stable/tafreader.cpp:143-181 | a printed string of any bytes is read back as it was |
| TafRoundTrip.ParsePrinted | src/stable/tafreader.cpp:30-63 | parsing a printed tree returns an equal tree; no byte after the last brace is needed or taken |
| TafRoundTrip.RoundTrips | src/stable/tafwriter.cpp:27-113 | the tree comes back exactly when no line comment holds a line end and no block comment holds its end mark |
| TafRoundTrip.EscapeKeepsNextByte | src/stable/tafreader.cpp:153-162 | behind a hexadecimal escape the next byte is read exactly when no closing brace is its value or second digit |
| TafRoundTrip.EscapedBraceLosesAByte | src/stable/tafreader.cpp:153-162 | a closing brace given as a hexadecimal escape makes the next byte disappear |
| TafRoundTrip.NoSecondGroup | src/stable/tafreader.cpp:30-55 | a reader that read a group cannot read another one |
| TafSpelling.StringReads | src/stable/tafreader.cpp:143-195 | however a string is written it is read: in quotes with every byte as itself or as one of its escapes, or without quotes up to white space, a brace, a colon or an equals sign |
| TafSpelling.ReadsWritten | src/stable/tafreader.cpp:30-211 | every text of a group, with any white space, spelling of strings, nameless properties and line ends of comments, is read as the tree it stands for; nothing behind it is taken |
| TafSpelling.UnknownEscape | src/stable/tafreader.cpp:172-174 | no other letter behind a backslash is accepted |
| TafSpelling.WrongStart | src/stable/tafreader.cpp:33-34 | a group that does not begin with a brace, and a stray colon, are errors of their own |
| TafSpelling.NoColon | src/stable/tafreader.cpp:41-43 | a group name without a colon behind it is an error |
| TafSpelling.ByteWritten | src/stable/tafwriter.cpp:94-111 | which bytes are escaped, and how |
| TafSpelling.NodeWritten | src/stable/tafwriter.cpp:21-89 | how each kind of node is written, byte by byte |
| TafStream.ParseSame | src/stable/tafreader.cpp:236-250 | what is behind a group does not matter, and an error does not go away with more input |
| TafStream.CutOff | src/stable/tafreader.cpp:236-244 | a group is read from its own bytes alone; when one of them is missing the stream ended too soon, wherever it was cut |
| TafSyntax.ReadContent | src/stable/tafreader.cpp:65-87 | reading a group's content always ends at its closing brace, using up input |
| Taf.TafReader.Next | src/stable/tafreader.cpp:213-234 | one byte forward, with the byte behind a closing brace left unread |
| Taf.TafReader.Escape | src/stable/tafreader.cpp:151-174 | the byte an escape sequence stands for, or an error; which byte that is says `TafSpelling.StringReads` |
| Taf.TafReader.ReadString | src/stable/tafreader.cpp:143-195 | a quoted or bare string as specified |
| Taf.TafReader.ReadComment | src/stable/tafreader.cpp:104-141 | a line or block comment as specified |
| Taf.TafReader.ReadProperty | src/stable/tafreader.cpp:89-102 | a property as specified; one without an equals sign has an empty name |
| Taf.TafReader.GroupContent | src/stable/tafreader.cpp:65-87 | the children in document order, indexed by name, or the error |
| Taf.TafReader.ReadGroup | src/stable/tafreader.cpp:30-63 | the tree the specification reads, in a group whose indexes are right |
| Taf.TafWriter.WriteString | src/stable/tafwriter.cpp:91-113 | the quoted and escaped string |
| Taf.TafWriter.WriteProperty | src/stable/tafwriter.cpp:58-72 | the printed property at the current depth |
| Taf.TafWriter.WriteComment | src/stable/tafwriter.cpp:74-89 | the printed comment at the current depth |
| Taf.TafWriter.WriteGroup | src/stable/tafwriter.cpp:27-56 | the printed tree, with the depth restored |
| Taf.FirstOfGroups | src/stable/tafgroup.cpp:79-87 | the first entry of the index is the first group of that name in document order |
| Taf.TafGroup.AddChild | src/stable/tafgroup.cpp:59-103 | the child comes last, and the indexes list exactly the children |
| Taf.TafGroup.AddGroup | src/stable/tafgroup.cpp:79-87 | the group comes last, in the children and under its name |
| Taf.TafGroup.AddProperty | src/stable/tafgroup.cpp:89-97 | the property comes last, in the children and under its name |
| Taf.TafGroup.GetChild | src/stable/tafgroup.cpp:137-146 | the first group of that name in document order, or an error when there is none |
| Taf.TafGroup.GetProperty | src/stable/tafgroup.cpp:164-173 | the value of the first property of that name in document order, or an error |
| Taf.TafGroup.GetPropertyOr | src/stable/tafgroup.cpp:175-186 | the same with a default |
| Taf.TafGroup.GetChildByPath | src/stable/tafgroup.cpp:194-204 | the group the path leads to by first groups, or an error when it leads to none |
| Taf.TafGroup.GetByPath | src/stable/tafgroup.cpp:211-223 | the first property of the last name in the group the others lead to, or which of the two is missing |
| Grammar.AdvancePending | src/experimental/parser.cpp:160-175 | advancing leaves what is pending behind the current symbol |
| Grammar.ChosenImplements | src/experimental/parser.cpp:108-158 | whatever is derived after a selection is derived from the selected non-terminal |
| Grammar.RejectedRightly | src/experimental/parser.cpp:108-158 | a rejected token begins nothing that can be derived there, nor can nothing be derived |
| Grammar.StartsByProduction | src/experimental/parser.cpp:112-157 | a non-terminal starts with a token when it can be skipped or a production opens with it |
| Grammar.SelectionEnds | src/experimental/parser.cpp:108-158 | a selection ends exactly when it does within as many nested calls as there are non-terminals |
| Grammar.WithoutLeftRecursion | src/experimental/parser.cpp:132-151 | without left recursion every selection ends so |
| Grammar.EmptyProductionIsPassedOver | src/experimental/parser.cpp:115-116 | a grammar with an empty production, of which the only derivable token is rejected |
| ParserRun.MoveOnce | src/experimental/parser.cpp:57-104 | there is one way to move: a terminal takes a token of its kind, a reduction is made, or the first production that can open is selected |
| ParserRun.RefusesMove | src/experimental/parser.cpp:71-96 | where the token is of another kind than the terminal, or nothing can be selected, there is no way to move |
| ParserRun.Decided | src/experimental/parser.cpp:49-105 | a parse makes the moves there are: it ends normally exactly after the run to the end, with an error at the place where no move is possible, and otherwise goes on |
| Parser.TrackEnds | src/experimental/parser.cpp:49-105 | when nothing is pending, the tokens taken are derived from the root |
| Parser.Parser.AdvanceState | src/experimental/parser.cpp:160-175 | productions that are done leave the stack |
| Parser.Parser.SelectProduction | src/experimental/parser.cpp:108-158 | the first production that can open is pushed, down to a terminal; a failure leaves the stack as it was; whether it ends does not depend on the stack |
| Parser.Parser.Parse | src/experimental/parser.cpp:42-106 | a normal end means that the tokens taken, pushes and reductions included, are derived from the root, or that the first token does not start it; it makes one move a round, and stops short only when its rounds are used up or a selection nests too deep, which without left recursion none does |
| SynchroItems.ItemQueue.Enqueue | src/stable/synchroqueue.h:81-96 | the linked list gets the value at its end |
| SynchroItems.ItemQueue.Take | src/stable/synchroqueue.h:151-163 | the linked list gives its first value, or nothing when it is empty |
| SynchroQueue.StepFifo | src/stable/synchroqueue.h:77-236 | every step keeps: values dequeued and values queued are the values enqueued, and the size is right |
| SynchroQueue.StepExclusive | src/stable/synchroqueue.h:77-236 | every step keeps the lock with the one thread that is between acquiring and releasing it |
| SynchroQueue.StepNoLostWakeup | src/stable/synchroqueue.h:77-236 | every step keeps: while a thread sleeps, each queued value has a woken thread or a signal coming for it |
| SynchroQueue.RunInv | src/stable/synchroqueue.h:77-236 | all of it holds in every reachable state of any number of threads |
| SynchroQueue.EveryRunIsFifo | src/stable/synchroqueue.h:77-205 | in every interleaving values are dequeued in the order they were enqueued |
| SynchroQueue.NobodySleepsInVain | src/stable/synchroqueue.h:98-141 | when all is at rest and a consumer sleeps, the queue is empty |
| SynchroQueue.NoDeadlock | src/stable/synchroqueue.h:77-236 | in every reachable state, unless all threads are outside of the queue or asleep in it, one that is not can make a step |
| SynchroQueue.LockComesFree | src/stable/synchroqueue.h:77-236 | in every run a thread has let go of the lock by its third step with it, whatever the others do |
| SynchroQueue.LooksAtQueue | src/stable/synchroqueue.h:98-205 | in every run a dequeue of any kind takes the first value when there is one; with an empty queue a blocking or timed one goes to sleep once, and otherwise nothing is returned |
| SynchroQueue.EnqueuePutsLast | src/stable/synchroqueue.h:77-96 | in every run an enqueued value is put last |
| SynchroQueue.UnblockWakesAll | src/stable/synchroqueue.h:225-236 | in every run nobody is asleep when a thread has unblocked all |
| SynchroQueue.ReturnsNothingExactly | src/stable/synchroqueue.h:98-141 | in every run a blocking dequeue returns nothing exactly when it was woken and all that was enqueued is dequeued |
| SynchroQueue.WhyNothing | src/stable/synchroqueue.h:98-141 | a woken consumer that finds nothing was not woken by a signal, or somebody dequeued since |
| SynchroQueue.SoleConsumerGetsValues | src/stable/synchroqueue.h:98-141 | the only consumer, with nobody unblocking it, gets a value from every blocking dequeue |
| SynchroQueue.BlockingDequeueMayReturnNothing | src/stable/synchroqueue.h:111-116 | a run in which a blocking dequeue returns nothing although nobody was cancelled |
| Base64Codec.AlphabetIsStandard | src/stable/base64.cpp:12-14 | the characters are those of section 4 of RFC 4648, in that order |
| Base64Codec.GroupBits | src/stable/base64.cpp:74-85 | which bits of three, two or one bytes each character stands for, and where the padding is |
| Base64Codec.GroupDecoded | src/stable/base64.cpp:152-166 | a group is decoded exactly when its characters have a place in the table, to the bits of its digits less the padding, with which decoding ends |
| Base64Codec.DecodeEncode | src/stable/base64.cpp:152-166 | decoding undoes the encoding of section 4 of RFC 4648 |
| Base64Codec.SolidWrap | src/stable/base64.cpp:189-196 | without its line ends the text is the canonical encoding |
| Base64Codec.FullLines | src/stable/base64.cpp:189-196 | every full line has exactly the given number of characters |
| Base64Codec.WrapMore | src/stable/base64.cpp:188-199 | a group of four characters needs at most one line end, where the code puts it |
| Base64Codec.FinalEncodes | src/stable/base64.cpp:74-85 | the padded group completes the canonical encoding |
| Base64Codec.FinalOnce | src/stable/base64.cpp:70-97 | a second stop spoils the encoding unless the length is a multiple of three |
| Base64Codec.RoundTrip | src/stable/base64.cpp:104-206 | the text in lines of any length decodes to the bytes |
| Base64.Base64.Write | src/stable/base64.cpp:174-206 | the text written so far is the encoding of the whole groups so far, in lines |
| Base64.Base64.Stop | src/stable/base64.cpp:70-102 | the text is the canonical encoding of everything written, in lines |
| Base64.Base64.Read | src/stable/base64.cpp:104-172 | the next bytes of what the input decodes to, however many were asked for before |
| Base64.Through | src/stable/base64.cpp:70-206 | for every split into writes and every split into reads, what is read is what was written |
| HeapOrder.SinkSwap | src/stable/heap.h:112-127 | an item pushed down takes the place of one it belongs above, and the order stays |
| HeapOrder.SiftSwap | src/stable/heap.h:131-142 | one step up keeps the order but for the item that moves |
| HeapOrder.HoleMoves | src/stable/heap.h:152-168 | the hole moves to the least child, with the items and their order kept |
| HeapOrder.HoleFilled | src/stable/heap.h:172-175 | the last item in the hole gives a heap of the remaining items |
| HeapOrder.FirstIsLeast | src/stable/heap.h:146-150 | the first item of a heap is a least one |
| Heap.HeapCore.Enqueue | src/stable/heap.h:103-144 | a heap of the items and the new one |
| Heap.HeapCore.Dequeue | src/stable/heap.h:146-178 | a least item, and a heap of the others |
| Heap.HeapCore.Peek | src/stable/heap.h:261-268 | a least item, or an error when there is none |
| LinkedList.ListCore.Append | src/stable/list.h:62-83 | the value comes last in the doubly linked list |
| LinkedList.LeastIsNext | src/stable/list.h:416-419 | a least item of the heap keeps the list sorted |
| LinkedList.ListCore.Sort | src/stable/list.h:408-420 | a sorted permutation for any strict weak order |
| MiniCron.SettleCounts | src/stable/minicron.cpp:203-209 | a repeating job's run count grows by exactly the number of its scheduled times that have come |
| MiniCron.RunOutOfTurn | src/stable/minicron.cpp:203-209 | a run that does not reschedule is counted and changes nothing about what the job comes to; one that does leaves out the next scheduled time |
| MiniCron.PollsAreOnePoll | src/stable/minicron.cpp:50-74 | any polls with a clock that does not run backward come to the same as one poll at the last time |
| MiniCron.AllAccounted | src/stable/minicron.cpp:50-74 | once no job is due, every job was run exactly at its scheduled times |
| MiniCron.RunSettles | src/stable/minicron.cpp:58-69 | running a due job changes nothing about what all jobs come to |
| MiniCron.MiniCron.AddJob | src/stable/minicron.cpp:76-100 | a new job under a fresh id at the first time of its timer |
| MiniCron.MiniCron.Poll | src/stable/minicron.cpp:50-74 | the poll ends, every job was run exactly when due, in the order of the times, and none is due any more |
| MiniCron.MiniCron.RemoveJob | src/stable/minicron.cpp:102-120 | the job is gone and all others are kept |
| MiniCron.MiniCron.RunJob | src/stable/minicron.cpp:122-146 | the job was run once and all others are kept; one that does not repeat is gone; the run is counted, and the times of the job move only when it is rescheduled |
| SharedCore.World.CoresAreUsed | src/stable/sharedcore.h:160-169 | the cores not deallocated are exactly those with a handle |
| SharedCore.UsersMove | src/stable/sharedcore.h:171-184 | a handle that comes to a core is one more on it and one less on the one it left |
| SharedCore.Handle.Copy | src/stable/sharedcore.h:78-83 | a handle on the same core, counted |
| SharedCore.Handle.Deref | src/stable/sharedcore.h:160-169 | the core is deallocated exactly when the last handle leaves |
| SharedCore.Handle.Assign | src/stable/sharedcore.h:90-97 | the handle is on the other core, and the one it left is there exactly while another handle is on it |
| SharedCore.Handle.HardCopy | src/stable/sharedcore.h:118-128 | a core of its own with the same value; no other handle sees a difference |
| SharedCore.Handle.Mutate | src/stable/sharedcore.h:118-128 | a change through one handle never changes another handle's value |
| SharedCore.Handle.Reset | src/stable/sharedcore.h:136-142 | a new core, with the old one left as by a handle that ends |
| SharedCore.Handle.Destroy | src/stable/sharedcore.h:85-88 | the handle is gone, and its core with it exactly when it was the last |
| SharedCore.Handle.GetRefCount | src/stable/sharedcore.h:99-102 | the number of handles on the core |
| HashBlocks.FoldMore | src/stable/sha1.cpp:51-73 | whole blocks can be taken in one after the other |
| HashBlocks.PadSteps | src/stable/sha1.cpp:82-105 | the padding as the code adds it is that of section 5.1.1 of FIPS 180-4 |
| HashBlocks.PadBlocks | src/stable/md5.cpp:103-150 | the one or two blocks the code builds are the padded message's last blocks |
| HashBlocks.RotatesLeft | src/stable/sha1.cpp:182-185 | rotation is to the left, for every amount that the two digests use |
| Sha1.Sha1.Process | src/stable/sha1.cpp:125-180 | a block is taken in by the compression of section 6.1.2 of FIPS 180-4 |
| Sha1.Sha1.AddData | src/stable/sha1.cpp:45-74 | the state is that of all data so far, however it was divided |
| Sha1.Sha1.GetResult | src/stable/sha1.cpp:76-118 | the digest of the concatenation, for less than 2^32 bytes; what is computed beyond that |
| Sha1Known.DigestOfAbc | src/stable/sha1.cpp:76-180 | the digest of "abc" is the one of FIPS 180-4, derived round by round |
| Md5.SameFunctions | src/stable/md5.cpp:144-147 | the code's selection functions are those of RFC 1321 |
| Md5.CompBlock | src/stable/md5.cpp:155-235 | the 64 unrolled steps are those of section 3.4 of RFC 1321, indices, constants and rotations included |
| Md5.BitsAdded | src/stable/md5.cpp:51-54 | the carry between the two words of the length is right for every size |
| Md5.Md5.AddData | src/stable/md5.cpp:46-87 | the state is that of all data so far, however it was divided |
| Md5.Md5.GetResult | src/stable/md5.cpp:89-153 | the digest of the concatenation for any length; nothing changes, so more can be added |
| Md5Known.DigestOfAbc | src/stable/md5.cpp:89-235 | the digest of "abc" is the one of appendix A.5 of RFC 1321, derived step by step |
| TelnetSpec.AnswersAllButDont | src/stable/protocoltelnet.cpp:324-406 | commands are answered as RFC 854 has it, but for the demand to stop, which is sent back |
| TelnetSpec.NegotiatedFlags | src/stable/protocoltelnet.cpp:324-406 | an accepted WILL or DO sets its flag, WONT and DONT clear theirs, and nothing else changes |
| TelnetSpec.OtherInput | src/stable/protocoltelnet.cpp:187-255 | what becomes of doubled 255, other commands, stray marks and control characters, and of bytes outside of lines |
| TelnetSpec.EchoIsOption | src/stable/protocoltelnet.cpp:231-249 | characters are echoed exactly while the echo option is on at this side; a new decoder has all options off |
| TelnetSpec.ThrowsExactly | src/stable/protocoltelnet.cpp:408-429 | a call throws exactly when a window size it comes to has less than four bytes |
| TelnetSpec.StepStays | src/stable/protocoltelnet.cpp:87-255 | a step does not depend on what follows the bytes it takes |
| TelnetSpec.RunInPieces | src/stable/protocoltelnet.cpp:87-265 | decoding what there is and then the rest is decoding all at once; a call that throws does not look at the rest |
| TelnetSpec.AnyFragmentation | src/stable/protocoltelnet.cpp:87-265 | a fragmentation gives the same lines, replies, flags and subnegotiations in the same order exactly when no call but the last throws |
| TelnetSpec.AllFragmentations | src/stable/protocoltelnet.cpp:87-265 | every fragmentation does exactly when the input holds no window size that is too short |
| TelnetSpec.ShortWindowLosesALine | src/stable/protocoltelnet.cpp:408-418 | an input for which one call throws and hands on no line, and two calls do |
| TelnetSpec.SubnegotiationDelivered | src/stable/protocoltelnet.cpp:93-125 | a payload sent with every 255 doubled is delivered unchanged, or throws when it is too short for its option |
| TelnetSpec.LineDelivered | src/stable/protocoltelnet.cpp:198-240 | a line of printable characters is handed on as it is, behind its echo |
| TelnetSpec.DeletedCharacter | src/stable/protocoltelnet.cpp:459-468 | the delete key takes the last character out of the line and wipes it out on the other side; in an empty line it does nothing |
| Telnet.Telnet.Command | src/stable/protocoltelnet.cpp:129-193 | a command is carried out once it is complete |
| Telnet.Telnet.OnSubOpt | src/stable/protocoltelnet.cpp:408-429 | the subnegotiation is handed on and its buffer cleared, or it throws and the buffer stays |
| Telnet.Telnet.OnNewData | src/stable/protocoltelnet.cpp:87-265 | all complete input is decoded as specified, up to where it throws, and the rest stays in the buffer |
| Telnet.FeedPieces | src/stable/protocoltelnet.cpp:87-265 | feeding pieces leaves the decoder as feeding them at once, exactly when no call but the last throws |
| QueueBuf.QueueBuf.Write | src/stable/queuebuf.cpp:127-161 | the bytes come last in the queue |
| QueueBuf.QueueBuf.Read | src/stable/queuebuf.cpp:35-72 | the first bytes of the queue, which are taken out |
| QueueBuf.QueueBuf.Seek | src/stable/queuebuf.cpp:168-189 | the first bytes are dropped |
| QueueBuf.QueueBuf.Peek | src/stable/queuebuf.cpp:79-125 | the bytes of the blocks behind a skip, limited by the size and the blocks, or an error for a skip past the blocks |
| QueueBuf.QueueBuf.PeekIsExact | src/stable/queuebuf.cpp:79-125 | a look is the exact slice when it stays inside the queue, and exactly when it does not go wrong otherwise |
| QueueBuf.QueueBuf.SizeLaw | src/stable/queuebuf.cpp:266-277 | while blocks exist the total size is what the blocks and the two offsets say |
| Formatter.PrintedIsRead | src/stable/formatter.h:76-132 | an integer printed in radix 2 to 10 with any width, alignment, sign and space fill is read back |
| Formatter.SignedRoundTrip | src/stable/formatter.h:76-104 | a signed value is read back exactly when it is not the minimum of its type |
| Formatter.DigitsStand | src/stable/formatter.h:82-132 | the figures and letters printed stand for the number in every radix, in the case asked for and without leading zeros |
| Formatter.AlignedPlace | src/stable/formatter.cpp:121-159 | where the text stands among its fill characters for each alignment |
| Formatter.SignInFront | src/stable/formatter.h:97-98 | which sign is put in front |
| Formatter.LeadingFigures | src/stable/formatter.h:184-231 | a token is read as its sign and leading figures say, in any radix; what is behind them does not matter |
| Formatter.DigitsFit | src/stable/formatter.h:82-102 | the digits of a number of that many bits fit into the buffer |
| Formatter.Formatter.WriteAligned | src/stable/formatter.cpp:121-159 | the text among its fill characters, and a temporary format is used up |
| Formatter.Formatter.PrintUnsigned | src/stable/formatter.h:107-132 | the digits with the optional sign, aligned |
| Formatter.Formatter.PrintSigned | src/stable/formatter.h:76-104 | the sign and the digits, aligned, for every value of the type |
| Formatter.Formatter.ReadToken | src/stable/formatter.cpp:166-209 | the next token, with the white space that ends it |
| Formatter.Formatter.Parse | src/stable/formatter.h:184-231 | the number its digits stand for; an empty token changes nothing |

## Left out

- Sockets, files, processes, servers, HTTP, FUSE, plugins, compression and regular expressions: I/O and foreign
  libraries. A backing stream is bytes and a position, a clock is a parameter, a lexer is a function from positions
  to tokens.
- Formula, RingBuffer, Conduit, SynchroHeap, Buffer, Cache, String and the smaller containers: their natural claims are
  false of the code or easier members of kinds that are here.
- Allocators, logging, NUL terminators and the line and column numbers in error messages.
- Myriad.Myriad.Load: a header with negative sizes, block ids outside of the store or fields cut off fails with
  `Corrupt` here; the code goes on with undefined values. Numbers in the header are 32 bits (`Fits32`), all other
  counters are unbounded.
- Myriad.MyriadStream.Write: at most one handle on a stream at a time, as the block cache needs it. Streams are
  values in a sequence, and a handle finds its stream by id instead of by a pointer.
- MyriadClient.Client.Run: stops at an operation that would break the assumptions of the block cache: a second handle on
  a stream, a stream deleted under its handle, a resize that gives back the block a handle holds. Positions before the
  start are not modelled.
- MyriadClient.SaveAndReopen: for streams whose numbers fit into 32 bits, which is what the format holds.
- MyriadReopen.Open: the mutexes of the store are not modelled; the operations run one after the other.
- Hash.HashCore.Probe: the code admits that its recursion may not end. `fuel` bounds how deep rehashes nest, and a
  call that exceeds it promises nothing but that; every run that ends has enough of it (`MoreFuel`). For keys of
  several hash codes, when a rehash ends is stated by the function `Settled` only. Capacities stay below 2^31, so that
  no step wraps.
- Hash.HashCore.Equals: of a comparison during which the other table is rehashed, only the result is stated, not
  whether it ends.
- Hash.HashCore.Erase: proxies and iterators that are kept across changes are not modelled; the bit arrays are arrays
  of booleans.
- Taf.TafGroup.GetChildByPath: nested groups are values, and their indexes are built when they are looked into.
- TafSpelling.ReadsWritten: a closing brace as a hexadecimal escape is no spelling here, because the reader loses the
  byte behind it (`EscapedBraceLosesAByte`).
- Parser.Parser.Parse: `fuel` bounds the recursion, which needs no more of it than there are non-terminals, and `steps`
  the rounds: the lexer has no last token, and a skipped non-terminal can hide a left recursion. Reductions are events
  that leave the parser alone.
- SynchroQueue.RunInv: a signal wakes one sleeping thread, and any thread may wake up without one, which covers a signal
  that wakes several. The number a thread that asks for the size gets is not part of its result here.
- Base64.Base64.Read: the stream behind the filter is a blocking one; a byte outside of the decoding table is an error
  here, and read out of the table in the code. Line lengths are 0 or at least 4.
- Heap.HeapCore.Enqueue: iterators over a heap are not modelled.
- LinkedList.ListCore.Append: the list is here for sorting; insertion before a link and erasure are not modelled.
- MiniCron.MiniCron.Poll: interval timers only, with positive intervals, and callbacks that leave the scheduler alone.
  Calendar timers rest on the local time.
- SharedCore.Handle.Deref: a core that was deallocated is one without a counter.
- Sha1.Sha1.GetResult, Md5.Md5.GetResult: on a host that stores words least significant byte first. Resetting the
  streams' salts does nothing in the code.
- Telnet.FeedPieces: whoever calls the decoder catches what it throws and goes on with the next piece.
- Telnet.Telnet.OnNewData: callbacks leave the decoder alone; what the user writes and the options set from outside are
  not modelled.
- QueueBuf.QueueBuf.Write: blocks are values in a sequence, so copying into a block in place is not captured.
- Formatter.Formatter.Parse: numbers too large for their type are not modelled, nor are the floating-point formats.
