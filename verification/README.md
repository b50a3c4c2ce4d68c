# libthe-seed: containers, signatures, plugin loads and dependencies

Dafny 4.11 models of the parts of libthe-seed that rewrite binary containers, load plugins across threads and
attribute library dependencies, with proofs of what they promise. `dafny verify dfyconfig.toml` checks everything.

- **Compound files** (`Cfb*.dfy`, [MS-CFB] sections 2.2 to 2.6). The reader of MSI packages: chains under an ownership
  table, stream resolution, the search trees. The canonical writer: flattening, layout, indexes, serialisation,
  self-check. The Authenticode fingerprint. Each runs in place, from bytes to bytes, and is tied to a definition on
  values; about the definitions the main results are that the writer's own check can never be what fails, that writing
  is idempotent byte for byte, and that rebuilding keeps the fingerprint.
- **Mach-O** (`MachO*.dfy`). The load-command parse, planning and completing a signature, the SuperBlob, signing again,
  stripping, and universal files. A signed program is parsed again, its CodeDirectory is checked against the finished
  bytes, stripping is characterised exactly, for one program and for universal files, and an assembled universal file
  is read back.
- **PE** (`Pe*.dfy`, Microsoft PE Format, "The Attribute Certificate Table"). Embedding, extracting, stripping, what is
  hashed, and the checksum.
- **PluginCache** (`PluginCache.dfy`). Any number of `Get` and `PathAdd` calls as an atomic-step system, one step for
  each critical section.
- **DependencyLister** (`Dependency*.dfy`). The search for names in folders, the graph that grows while it is
  iterated, and the walks with a reused stamp array.
- **File replacement, paged reading, SHA-256** (`FileReplace.dfy`, `PagedFile.dfy`, `ByteSpan.dfy`, `Sha*.dfy`).
  Replacement with any system call failing and any process killed at any step; a paged file against the plain file;
  the streaming hasher against FIPS 180-4 sections 5.1.1 and 6.2.2.

A rejection is one value, without its text. Hash functions are parameters but in the SHA-256 model and the MSI
fingerprint: "the same digest" means the same bytes fed. What the operating system answers (files, reads, opens,
symbols) is a parameter or a free choice of the step. Sorting is a function on keys; where the code sorts with keys that
never repeat, the order is unique.

## Model

| member | source | states |
|---|---|---|
| CfbChains.Walk | src/internal/CfbReader.cpp:118-157 | the walk over a table with owner marks: it only adds marks, and of its own id, whatever the table holds |
| CfbChains.WalkExact | src/internal/CfbReader.cpp:118-157 | a walk succeeds exactly when the table alone holds a chain from that start and none of its sectors was marked before; then it marks exactly that chain |
| CfbChains.ChainInside | src/internal/CfbReader.cpp:118-157 | a chain stays inside the table and never repeats a sector |
| CfbChains.SectorOwners.Set | src/internal/CfbReader.hpp:121-129 | the sparse table behaves as one owner per sector: setting one changes that one only, blocks being allocated on demand |
| CfbChains.WalkChain | src/internal/CfbReader.cpp:118-157 | the loop with the sparse owner table terminates on every table, cyclic or crossing, and does what the walk does, marks of a rejected walk included |
| CfbPackage.PackageModel.WalkMiniChain | src/internal/CfbReader.cpp:168-200 | the same for the mini-FAT |
| CfbPackage.PackageModel.EnsureMiniStream | src/internal/CfbReader.cpp:269-307 | the mini stream is located at most once; a failed attempt keeps its marks and its number |
| CfbPackage.PackageModel.ResolveOrdinary | src/internal/CfbReader.cpp:223-250 | refines the resolution of an ordinary stream: same extents, same new ownership state, also when it is rejected |
| CfbPackage.PackageModel.ResolveMini | src/internal/CfbReader.cpp:309-335 | the same for a stream in the mini stream |
| CfbPackage.PackageModel.Resolve | src/internal/CfbReader.cpp:337-348 | the dispatch between an empty, a mini and an ordinary stream |
| CfbPackage.GatherMinis | src/internal/CfbReader.cpp:309-335 | extents of a mini chain through the sectors of the mini stream, or none when the file ends too early |
| CfbResolve.ResolveStep | src/internal/CfbReader.cpp:223-348 | every call, successful or not, keeps the ownership invariant and leaves the claims of earlier streams |
| CfbRuns.AloneFits | src/internal/CfbReader.cpp:223-348 | extents of a readable stream lie in the file and total its size |
| CfbRuns.NoByteDeliveredTwice | src/internal/CfbReader.cpp:118-348 | for every sequence of calls on one model, over arbitrary (cyclic, crossing) tables: extents of successful calls lie in the file, total the stream's size, and no byte is in the extents of two calls, mini stream against ordinary streams included |
| CfbRuns.AllResolveExactly | src/internal/CfbReader.cpp:118-348 | a list of streams all resolve on a fresh model if and only if each resolves alone and no two share a sector or mini sector |
| CfbRuns.OrderDoesNotMatter | src/internal/CfbReader.cpp:118-348 | so whether they all resolve does not depend on their order |
| CfbTree.CompareNames | src/internal/CfbReader.cpp:366-382 | the loop computes the shortlex order with ASCII letters folded, as a comparison of keys |
| CfbTree.InOrderOnce | src/internal/CfbReader.cpp:660-777 | on any directory graph the walk delivers each entry at most once and marks exactly what it reached |
| CfbTree.WalkTree | src/internal/CfbReader.cpp:660-777 | the explicit-stack walk terminates on every directory graph and equals the recursive in-order walk, rejections included |
| CfbSearch.FindBySearch | src/internal/CfbReader.cpp:396-411 | the loop is the search by name with its step limit |
| CfbSearch.SearchExact | src/internal/CfbReader.cpp:396-411 | on a balanced tree over names in strict order the search finds a name's entry if it is there and nothing otherwise, within its limit |
| CfbSearch.BuildTree | src/internal/CfbWriter.cpp:224-236 | the recursion in place sets the links of exactly the entries of the sequence to those of the balanced tree and returns its root |
| CfbSearch.WholeTreeInOrder | src/internal/CfbWriter.cpp:224-236 | a directory with those links has the sequence as its in-order walk |
| CfbSearch.BuiltTreeInOrder | src/internal/CfbWriter.cpp:224-236 | so what BuildTree makes is read back by the reader's walk as exactly the sequence it was made from |
| CfbSearch.LinksBalanced | src/internal/CfbWriter.cpp:224-236 | the links make the balanced tree the search needs |
| CfbReader.ParsedIsValid | src/internal/CfbReader.cpp:436-818 | whatever the file: the FAT sectors of a package that parses lie in the file, and every link of its search trees is a position among its storage's children |
| CfbParse.WalkDifat | src/internal/CfbReader.cpp:528-562 | the loop with its marks follows the chain of DIFAT sectors, a repeated or missing sector being a rejection |
| CfbParse.ReadFatSectors | src/internal/CfbReader.cpp:511-579 | the list of FAT sectors from the header and that chain, each checked to lie in the file and to be listed once |
| CfbParse.ReadMiniFat | src/internal/CfbReader.cpp:581-599 | the mini-FAT gathered sector by sector is the one the tables say |
| CfbParse.ReadDirectory | src/internal/CfbReader.cpp:601-656 | the directory read field by field is the decoded chain |
| CfbReadTree.ReadChildren | src/internal/CfbReader.cpp:660-777 | with one table of visits for the whole recursion, positions in a map and links filled in afterwards, the nodes are those of the tree, the same rejections included, on any directory graph |
| CfbParse.ParseFile | src/internal/CfbReader.cpp:436-818 | the whole parse terminates on every input and delivers the package, or the rejection, that the definition of the format says |
| CfbLayout.LeastSolves | src/internal/CfbWriter.cpp:280-299 | the two equations for FAT and DIFAT sizes have a solution, and this is the least one |
| CfbLayout.SolveIndex | src/internal/CfbWriter.cpp:280-299 | the loop from zero ends, in at most 12 of its 64 steps, at the least solution for every size 64-bit arithmetic can describe |
| CfbSerialise.ComputeLayout | src/internal/CfbWriter.cpp:240-308 | the layout pass computes the plan and refuses exactly what exceeds the sector limit |
| CfbSerialise.SetRun | src/internal/CfbWriter.cpp:357-364 | the run is written and nothing else |
| CfbSerialise.BuildFatTable | src/internal/CfbWriter.cpp:378-515 | the FAT, filled run by run in place, is the table whose chains are those of all regions and streams |
| CfbSerialise.BuildMiniTable | src/internal/CfbWriter.cpp:378-515 | the mini-FAT likewise |
| CfbSerialise.CopyStreams | src/internal/CfbWriter.cpp:366-376 | every stream is copied to its own units, small ones into the mini stream, the rest stays zero |
| CfbFlatten.Flattener.Expand | src/internal/CfbWriter.cpp:145-219 | flattening in place, recursively: succeeds exactly when no name stands twice at or below the storage and all streams resolve in that order; then earlier entries are kept and the new ones are the sorted tree with each parent holding the positions of its children |
| CfbRebuild.FlattenPackage | src/internal/CfbWriter.cpp:119-143 | the whole flattening, old signatures left out and the new one put in, gives the entries of the intended tree or is refused exactly when that cannot be flattened |
| CfbRebuild.LinkEntries | src/internal/CfbWriter.cpp:224-236 | setting the trees of all storages in place gives exactly the directory to write |
| CfbRebuild.CompareEntry | src/internal/CfbWriter.cpp:565-626 | the comparison accepts exactly when record, bytes, children and the place of every name in its search tree agree and every stream resolves |
| CfbRebuild.WritePackage | src/internal/CfbWriter.cpp:629-644 | the writer from end to end, the passes over its buffers and the parse and comparison of its own output included, computes the specified file or the specified rejection |
| CfbSerialise.Serialise | src/internal/CfbWriter.cpp:378-515 | the passes over one zeroed buffer give exactly the specified file |
| CfbEncoding.EntryBack | src/internal/CfbWriter.cpp:312-346 | a directory entry is read back from its 128 bytes; version 3 keeps the low half of the size |
| CfbEncoding.HeaderBack | src/internal/CfbWriter.cpp:462-513 | the header is read back, with everything a later write takes from it |
| CfbTables.FatListReads | src/internal/CfbReader.cpp:511-579 | the reader recovers exactly the run of FAT sectors through the 109 header slots and the chained DIFAT sectors |
| CfbTables.FatReads | src/internal/CfbReader.cpp:511-579 | and through that list the FAT that was written |
| CfbTables.RunFollowed | src/internal/CfbReader.cpp:118-157 | following a written run from its first unit gives the run |
| CfbDirectory.ReadsBack | src/internal/CfbReader.cpp:601-801 | reading a storage from where the writer put its entries gives its nodes in order, with the balanced tree as positions, and reaches exactly its entries |
| CfbRoundTrip.ParseBack | src/internal/CfbReader.cpp:436-818 | parsing what was serialised succeeds and delivers the tree of records: names, kinds, class ids, state bits, times, starts and sizes, and the tables |
| CfbStreams.StreamServed | src/internal/CfbReader.cpp:223-348 | every stream of a written file reads back its bytes |
| CfbStreams.StreamsApart | src/internal/CfbWriter.cpp:378-515 | no two streams of a written file share a sector or a mini sector |
| CfbUnpack.WrittenReadable | src/internal/CfbReader.cpp:337-348 | all streams of a written file can be read from one model, in any order |
| CfbUnpack.UnpackBack | src/internal/CfbWriter.cpp:565-625 | the tree read back with the bytes of every stream is the tree that was written |
| CfbWriter.RestoredTree | src/internal/CfbWriter.cpp:565-643 | parsing the written file and reading every stream gives the intended tree, bytes included |
| CfbCheck.SameBytes | src/internal/CfbWriter.cpp:525-563 | the comparison of piece lists answers whether the joined bytes are equal, whatever the cuts |
| CfbWriter.CheckPasses | src/internal/CfbWriter.cpp:565-643 | the self-check (parse, resolve every stream once, compare every record, every byte, and find every name by search) passes for every tree in order within the limits |
| CfbWriter.SelfCheckNeverFails | src/internal/CfbWriter.cpp:629-644 | rebuilding succeeds if and only if no storage holds a name twice, every stream can be read and the sector limit holds: the self-check is never what fails |
| CfbCanon.WantedFixed | src/internal/CfbWriter.cpp:119-215 | what the writer wants of a package it wrote with the same signature is that package |
| CfbWriter.WritingIsCanonical | src/internal/CfbWriter.cpp:119-308 | parsing the output and writing it again with the same signature gives identical bytes |
| CfbFingerprint.RawNameLess | src/internal/MsiAuthenticode.cpp:21-39 | the loop is the order of the swapped code units, that is of the UTF-16LE bytes |
| CfbFingerprint.FeedKept | src/internal/MsiAuthenticode.cpp:64-104 | whatever signature is put in, or none, the rebuilt tree feeds the hash the same bytes, although entries are reordered |
| CfbWriter.FingerprintKept | src/internal/MsiAuthenticode.cpp:64-157 | if the fingerprint of a package is defined, that of the rebuilt package read back is defined and the bytes fed are the same |
| CfbTree.NamesDiffer | src/internal/MsiAuthenticode.cpp:43-62 | sorting and comparing neighbours finds every name that stands twice |
| CfbHash.HashStorage | src/internal/MsiAuthenticode.cpp:64-114 | walking the storages in place over the model succeeds exactly when names are unique and all streams resolve in that order, and hands the hasher exactly the bytes of the fingerprint |
| CfbHash.ComputeFingerprint | src/internal/MsiAuthenticode.cpp:147-158 | the result is the SHA-256 digest of the bytes the fingerprint is made of, or a rejection exactly when none is defined |
| CfbWriter.FingerprintedRebuilds | src/internal/MsiAuthenticode.cpp:43-104 | a package with a fingerprint can be rebuilt without a signature, size permitting |
| MachOLayout.ReadCommands | src/internal/MachOLayout.cpp:199-342 | the loop over the load commands is the fold of what each command adds; a rejected command rejects the program |
| MachOLayout.Parse | src/internal/MachOLayout.cpp:164-359 | the parse of a 64-bit little-endian program, loop included |
| MachOLayout.ParsedApart | src/internal/MachOLayout.cpp:164-359 | an accepted program comes apart into its header, commands that state their own size, and the facts they add up to |
| MachOLayout.ApartParses | src/internal/MachOLayout.cpp:164-359 | and whatever comes apart so is accepted with these facts |
| MachOPlan.DescribedPlaces | src/internal/MachOLayout.cpp:164-359 | commands, link-edit segment and signature of an accepted program lie inside its load command area and its bytes |
| MachOPlan.RewriteInPlace | src/MachOSigner.cpp:290-316 | copying the kept bytes and writing the fields one by one gives the planned bytes |
| MachOPlan.HashPages | src/MachOSigner.cpp:344-350 | the loop hashes exactly the pages below the signature, the last one short |
| MachORewrite.KnownAlike | src/internal/MachOLayout.cpp:199-342 | giving the link-edit command other sizes changes no fact but those sizes |
| MachOSigner.RewriteRegions | src/MachOSigner.cpp:290-316 | of an unsigned program only the counts, the link-edit sizes and the sixteen bytes after the commands change; zeros follow up to the end of the region |
| MachOSigner.SignedParses | src/MachOSigner.cpp:233-355 | a supported unsigned program, signed, is accepted with its commands plus one signature command; signature data and __LINKEDIT both end at the program's end; text segment and libraries are unchanged |
| MachOSuperBlob.FindSuperBlobSlot | src/MachOSigner.cpp:825-914 | the loop answers malformed, absent or where the first blob of the slot is |
| MachOSuperBlob.ExtractBuilt | src/MachOSigner.cpp:694-740 | both blobs come back out of a built SuperBlob |
| MachOExtract.SignedVerifies | src/MachOSigner.cpp:233-355 | from the signed program alone: the signature is found, the CMS and the prepared CodeDirectory come out of it, and every code slot is the hash of the page of the finished program it stands for, up to where the signature begins |
| MachOAgain.PlanAgain | src/MachOSigner.cpp:194-355 | planning on a just-signed program is planning on the unsigned one: same bytes, same CodeDirectory, same refusals, for every identity and capacity |
| MachOAgain.LastSigningWins | src/MachOSigner.cpp:543-599 | signing again gives what signing the unsigned program that way gives |
| MachOAgain.SigningIsFixed | src/MachOSigner.cpp:543-599 | signing again with the same identity, capacity and CMS changes nothing |
| MachOStrip.StripPlaces | src/MachOSigner.cpp:606-650 | the command removed, the commands that move up and the link-edit command lie inside the command area, wherever the signature command stands |
| MachOStrip.MoveUp | src/MachOSigner.cpp:627-632 | later commands move up in place and zeros take the freed bytes |
| MachOStrip.StripInPlace | src/MachOSigner.cpp:606-650 | the strip in place, the search for the command's size included |
| MachOStrip.StripSigned | src/MachOSigner.cpp:606-650 | stripping a just-signed program gives the original outside the sixteen bytes after its commands, the two link-edit sizes and at most fifteen appended zeros, and it is accepted with the original commands |
| MachOStrip.StripExact | src/MachOSigner.cpp:606-650 | it gives the original byte for byte if and only if the length is a multiple of 16, those sixteen bytes were zero and the segment's size in memory already was what signing writes |
| MachOUniversal.ProgramsApart | src/internal/MachOLayout.cpp:432-453 | no two programs of an accepted universal file share a byte |
| MachOAssemble.Assemble | src/MachOSigner.cpp:413-476 | the three passes (places, bytes, table fields) compute the new file or the refusal |
| MachOAssemble.ProgramHeld | src/MachOSigner.cpp:413-476 | each entry of the new table has a place past the table, a multiple of 2^align, and the file holds exactly the given program there |
| MachOAssemble.SameOrder | src/MachOSigner.cpp:413-476 | the programs stand in the old file order, each ending before the next begins |
| MachOAssemble.TableBack | src/internal/MachOLayout.cpp:361-461 | the table of the new file is read back as the old one with the new places and lengths |
| MachOAssemble.AssembledParses | src/internal/MachOLayout.cpp:361-461 | the assembled file is accepted in the same form, and each entry's program parses as the one given |
| MachOAssemble.OtherBytesKept | src/MachOSigner.cpp:451-476 | the header, the bytes between the table and the first program, and everything after the last program are kept |
| MachOAssemble.RowKept | src/MachOSigner.cpp:464-475 | of a table entry only the offset and length fields change |
| MachOReassemble.AssemblingAgain | src/MachOSigner.cpp:413-476 | assembling over a file that was just assembled gives what assembling over the first one gives, other places and lengths of programs notwithstanding |
| MachOFile.SignedFile | src/MachOSigner.cpp:392-599 | signing a universal file of unsigned programs gives a file of the same form and order whose programs are the old ones signed, for the processor their row of the table names, and are accepted as such |
| MachOFile.LastFileSigningWins | src/MachOSigner.cpp:392-599 | signing the signed file again gives what signing the unsigned file that way gives |
| MachOFileStrip.StripReassembles | src/MachOSigner.cpp:654-692 | stripping a just-signed universal file never fails and is putting the stripped programs into the unsigned file |
| MachOFileStrip.StrippedFile | src/MachOSigner.cpp:606-692 | so it gives a file of the same form and order holding exactly those programs, each the unsigned one but for the places StripSigned names, and accepted as that was |
| MachOFileExact.PackedAssembles | src/MachOSigner.cpp:413-476 | putting back the programs of a file in which each stands at the first multiple of its alignment after the one before it gives the file |
| MachOFileExact.StripFileExact | src/MachOSigner.cpp:392-692 | signing and stripping a universal file gives it back byte for byte if and only if its programs stand like that and each is one that StripExact says comes back |
| PeChecksum.SumWords | src/PeSigner.cpp:290-331 | the loop folds to the closed form over the 16-bit words, an odd last byte included |
| PeChecksum.RecalcChecksum | src/PeSigner.cpp:290-331 | the recalculation in place |
| PeChecksum.ChecksumValue | src/PeSigner.cpp:290-331 | the stored value is 0 for word total 0 and otherwise 1 + (S-1) mod 65535, plus the file size |
| PeChecksum.OldFieldIgnored | src/PeSigner.cpp:290-331 | it does not depend on what the field held, at either offset parity |
| PeChecksum.RecalcIdempotent | src/PeSigner.cpp:290-331 | recalculating again changes nothing |
| PeSigner.ParsePeLayout | src/PeSigner.cpp:49-107 | the header fields that are read and written lie in the file |
| PeSigner.ValidateCertificateTable | src/PeSigner.cpp:157-212 | an accepted table lies after the headers and inside the file, its length inside it |
| PeSigner.FeedDigest | src/PeSigner.cpp:216-288 | the ranges walked are the file without checksum, directory entry and table, padded when unsigned |
| PeSigner.ComputeStripFloor | src/PeSigner.cpp:112-144 | the loop is the maximum of SizeOfHeaders and the section ends whose headers fit in the file |
| PeSigner.TrimPadding | src/PeSigner.cpp:455-465 | at most seven zero bytes are cut, never below the floor |
| PeSigner.ExtractEmbedded | src/PeSigner.cpp:333-421 | extract after embed returns the blob |
| PeSigner.LastEmbeddingWins | src/PeSigner.cpp:333-401 | embedding twice equals embedding only the last |
| PeEdit.Embed | src/PeSigner.cpp:333-401 | the buffer cut, grown and written field by field is the embedding, all checks coming first |
| PeEdit.Strip | src/PeSigner.cpp:435-479 | likewise the stripping |
| PeSigner.DigestKept | src/PeSigner.cpp:216-401 | the bytes fed to the hash are unchanged by embedding if and only if the file is unsigned or its table starts on a multiple of 8 |
| PeSigner.TrimExact | src/PeSigner.cpp:435-479 | trimming stops at the old end exactly when the floor is not above it and its last byte is not zero, padding permitting |
| PeSigner.StripEmbedded | src/PeSigner.cpp:435-479 | strip after embed restores an unsigned file, but for checksum and a zeroed entry, if and only if trimming stops there |
| PeSigner.FloorKept | src/PeSigner.cpp:112-144 | signing does not change the floor of a file whose section table lies inside it |
| PeSigner.StripRestoresExactly | src/PeSigner.cpp:435-479 | so the condition can be told from the unsigned file alone: its floor against its length, its padding and its last byte |
| PluginCache.StepKeeps | src/internal/PluginCache.hpp:39-237 | every step of Get and PathAdd, in every interleaving, keeps the protocol invariant |
| PluginCache.RunKeeps | src/internal/PluginCache.hpp:39-237 | so does every run |
| PluginCache.OneLoadPerName | src/internal/PluginCache.hpp:63-100 | at most one request works on a load of a name |
| PluginCache.OneEntryPerName | src/internal/PluginCache.hpp:161-172 | all successful requests for a name get the same entry |
| PluginCache.EntriesNeverChange | src/internal/PluginCache.hpp:161-172 | an entry once stored never changes and never goes |
| PluginCache.OpenedOnce | src/internal/PluginCache.hpp:195-237 | each file identity is opened successfully at most once, whatever names lead to it |
| PluginCache.FailureSawEveryPath | src/internal/PluginCache.hpp:176-187 | a delivered failure was computed from a list holding every path added before the request began |
| PluginCache.RetriesBounded | src/internal/PluginCache.hpp:63-100 | a request waits and retries at most one more time than there were PathAdd calls during it |
| PluginCache.FailureForgotten | src/internal/PluginCache.hpp:176-187 | a failed load leaves neither an entry nor a load in flight |
| PluginCache.NoDeadlock | src/internal/PluginCache.hpp:39-128 | a request that has not returned, or the owner of the load it waits for, can take a step |
| PluginCache.RunsEnd | src/internal/PluginCache.hpp:39-237 | without new requests and paths every run ends within a bound |
| DependencyLister.NormaliseInputs | src/DependencyLister.cpp:346-380 | the inputs kept are, sorted and once each, the smallest spelling of each distinct file |
| DependencyLister.RequestOrderIgnored | src/DependencyLister.cpp:346-380 | they do not depend on order or repetition in the request |
| DependencyGraph.Graph.FileNode | src/DependencyLister.cpp:153-220 | one node per file identity, found or added, and nothing else changes |
| DependencySearch.FoundInFirst | src/DependencyLister.cpp:257-316 | a name that cannot lead out of the folders is found exactly when some search folder has an entry for it, in the first one that has |
| DependencySearch.SpellingIs | src/DependencyLister.cpp:287-304 | ignoring case, the listed name spelled the same is taken, otherwise the smallest that differs in case only, otherwise the name itself if an entry answers to it |
| DependencySearch.CaseIgnored | src/DependencyLister.cpp:287-304 | names equal but for case, neither of them listed as it is spelled, lead to one path |
| DependencySearch.Group | src/DependencyLister.cpp:229-253 | the loop over a listing groups it by lower-case form, each group sorted |
| DependencyGraph.Graph.FolderMatches | src/DependencyLister.cpp:229-253 | through the cache of listings, the names of a folder equal to this one but for case |
| DependencyGraph.Graph.ResolveName | src/DependencyLister.cpp:257-316 | searching the folders in order, through the caches, a name leads to the node of the file it resolves to, or to the one node of the missing name |
| DependencyGraph.Graph.Expand | src/DependencyLister.cpp:318-333 | one node gets the nodes of its recorded names as successors, in order |
| DependencyGraph.Graph.Grow | src/DependencyLister.cpp:385-409 | iterating by index while nodes are appended ends over every finite file system, with every reached parsed node expanded once |
| DependencyCredits.Walk | src/DependencyLister.cpp:411-443 | one walk with the reused stamp array credits exactly the nodes reachable by a non-empty path |
| DependencyCredits.CreditAll | src/DependencyLister.cpp:411-443 | and so for every input |
| DependencyLister.ReachIsDepend | src/DependencyLister.cpp:318-443 | reaching a node in the grown graph is depending on its file in the file system |
| DependencyLister.ListDependencies | src/DependencyLister.cpp:383-491 | each key lists, sorted and once each, exactly the inputs that depend on it, loops and shared keys included |
| DependencyLister.ListingOrderIgnored | src/DependencyLister.cpp:383-491 | the listing does not change when inputs are permuted or repeated |
| ShaBlock.Schedule | external/picosha2.h:92-106 | the schedule filled in place is that of FIPS 180-4 section 6.2.2 |
| ShaBlock.HashBlock | external/picosha2.h:92-140 | one block: the loop over the working variables is the compression of section 6.2.2 |
| ShaStream.AddToLength | external/picosha2.h:246-257 | the carry loop keeps four base-65536 digits whose value is the true byte count |
| ShaStream.BitLength | external/picosha2.h:259-273 | the shifted digits have eight times the value |
| ShaStream.DigitsAreBigEndian | external/picosha2.h:269-273 | written high byte first they are the 64-bit length, most significant byte first |
| ShaStream.Hasher.Process | external/picosha2.h:194-203 | compresses exactly the whole blocks; what is left over stays buffered, below 64 bytes |
| ShaStream.Hasher.Finish | external/picosha2.h:205-233 | the last one or two blocks are those of the padding of section 5.1.1 |
| ShaStream.HashPieces | external/picosha2.h:194-233 | however a message below 2^61 bytes is cut into calls, the digest is that of the padded whole message |
| FileReplace.StepKeeps | src/internal/FileIO.cpp:359-404 | every step of every call, failing or not, and every kill keeps the invariant |
| FileReplace.AlwaysWhole | src/internal/FileIO.cpp:522-617 | in every run of interleaved replacements a file always exists and holds either its first bytes or all the bytes of the call that last renamed onto it; its permissions never change |
| FileReplace.CommitsAreCalls | src/internal/FileIO.cpp:522-617 | every call that returned is among the renames exactly once, none that threw is |
| FileReplace.OnlyRenameReplaces | src/internal/FileIO.cpp:522-617 | only a successful rename onto it changes what a name stands for, and the bytes of a named file are never written |
| FileReplace.WorkingFilesAreHeld | src/internal/FileIO.cpp:359-404 | a working file left over belongs to a call that is at work, was killed or could not unlink |
| FileReplace.NothingLeftBehind | src/internal/FileIO.cpp:359-404 | when every call returned or threw with its unlink working, the folder holds exactly the names it held |
| FileReplace.NeverWider | src/internal/FileIO.cpp:586-596 | a working file never grants a permission the original did not, and none while it is written |
| FileReplace.NeverStuck | src/internal/FileIO.cpp:541-617 | a call that has not ended can always take a step of its own |
| Paging.PagedFile.Page | src/internal/PagedFile.cpp:40-60 | a page is the file's bytes there, short at the end, read only if it was not read before |
| Paging.PagedFile.Ensure | src/internal/PagedFile.cpp:62-91 | exactly the file's bytes at the range; only pages that hold some byte of it are read, each at most once in the object's life; earlier joined ranges are kept |
| ByteSpan.SubViews | src/internal/BoundedBytes.hpp:167-179 | a part of a view is that part of its bytes, in memory and over a file alike |
| ByteSpan.StringMeans | src/internal/BoundedBytes.hpp:183-226 | a string is found exactly when its bytes, none NUL, and a NUL follow within the view and the length allowed |
| ByteSpan.CString | src/internal/BoundedBytes.hpp:183-226 | scanning a buffer whole and a file 4096 bytes at a time give the same string or the same rejection for every offset and limit |

## Left out

- CfbWriter.SelfCheckNeverFails: assumes what 32-bit fields can hold, in terms of the planned layout: at most 2^32 - 1 directory slots, at most 2^32 - 2 mini sectors, and in version 3 a mini stream and a new signature below 2^32 bytes. The other main results about the writer assume the same.
- CfbRoundTrip.ParseBack: states records, starts and sizes; the streams' bytes are in CfbStreams.StreamServed and CfbWriter.RestoredTree.
- CfbPackage.PackageModel.Resolve: the ownership numbers are unbounded, so the wrap of `last_owner` after 2^32 calls is not modelled.
- CfbParse.ParseFile: the checks of the header are one function, so that one of them fails is modelled, not which.
- CfbRebuild.WritePackage: assumes that the sums of the layout stay below 2^64; links are set before the layout, which does not look at them, rather than after it.
- CfbHash.ComputeFingerprint: assumes that fewer than 2^61 bytes are hashed, the limit of the hasher.
- MachOLayout.Parse: the list of all segments, which nothing reads, and the fields of declined kinds beyond the CPU type are not kept.
- MachOSigner.SignedParses: does not say where the first content of the signed program lies; nothing that signs or strips again depends on it.
- MachOStrip.StripInPlace: programs are at most 2^63 - 1 bytes; StripSlice refuses longer ones, which no buffer holds.
- MachOAssemble.Assemble: a wide table whose offsets would pass 2^64 is refused here, where the code would wrap; buffers of that size do not exist.
- PluginCache.OpenedOnce: which location the search finds, and whether opening or linking succeeds, are free choices; search order and symbol lookup are not modelled.
- DependencyLister.ListDependencies: the file system does not change during a call; canonical paths and folder listings are finite maps, parsed files are lists of names, and the reports of unreadable files and inputs are not modelled; stamps do not wrap.
- ShaBlock.HashBlock: words are 32 bits wide, where the code keeps them masked in a wider type.
- FileReplace.AlwaysWhole: assumes that nobody else changes the folder, that no caller names a working file, and that a rename is atomic; ownership, power loss and the Windows branch are not modelled.
- Paging.PagedFile.Ensure: the pointer handed out is its bytes, so how long it stays valid is not modelled beyond keeping joined ranges.
- DependencyGraph.Graph.FindPath: paths are joined with a slash, as on POSIX.
- The CMS blobs and the digest field inside them, and the contents of certificates.
- PakIndex, PakLoader, ResourcePak, JSONLoader and the loaders above the plugin cache.
- The import walks of ElfParser and PeParser; a parsed file is a list of names.
- NameParser, SearchFirst and the error texts.
