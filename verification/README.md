# narjar in Dafny

A model of the logic at the heart of narjar, a binary cache for Nix, with proofs about it.

**The NAR codec** (`src/nar.rs`, `src/nar_encode.rs`) is the main part. A Nix archive is the serialization of a tree of
directories, regular files and symbolic links. `NarFormat` gives the tree, its bytes, its traversal and the resource
limits. The decoder is given twice: `NarGrammar` is the recursive grammar, one function per production, and
`NarDecoder.Decoder` is the loop over an explicit stack of directory frames that updates its counters and buffers in
place; the class is proved to do what the grammar says, on success and on every failure. The encoder too is given twice,
as step functions (`NarEncoding`) and as a class (`NarEncoder.Encoder`). The main theorems say which byte streams the
decoder accepts, which event sequences the encoder accepts, and that each undoes the other; `NarLayout` and `NarNames`
tie the bytes, the names and their order to descriptions that do not use the codec's own definitions. A reader is a function from
positions to bytes that ends, fails, or never ends; hashing is represented by the sequence of bytes hashed.

**Online collection control** (`src/control.rs`) is a transition system: the dispatcher and the collector step one atomic
operation at a time, in any order, with shutdown and a panicking collector among the possible actions.

**narinfo** (`src/narinfo.rs`, `src/object.rs`, `src/storage/ids.rs`): printing through a size-bounded writer, parsing,
and the fingerprint that signatures sign, over store paths, digests in Nix base 32 and payload file names.
`NarInfoAccepts` says exactly which texts the two parsers accept and what they take them to say.

**The Peerix tracker** (`src/peerix_tracker.rs`): tables of announced and learned rows, what each request does to them,
and the documents served from them. `Tracker` states the requests as functions of the state, `TrackerService.Tables` is
the object that updates its maps and builds documents row by row. `TrackerBodies` says which bodies are accepted and what
they name.

**Peer sharing** (`src/peer_share.rs`): the bounded scan of the store directory, and the refresh of the offered index.

**Metrics** (`src/metrics.rs`): the ring of traffic samples, and the accounting of request guards as interleaved atomic
operations on wrapping and saturating counters.

Some promises do not hold of the code as one might expect. The model shows each failing, and says exactly when it holds:

- The ids in the iroh document can grow as time passes (`TrackerViews.IrohIdsCanGrow`); they only shrink if and only if
  the tables meet the condition of `TrackerViews.IrohShrinkExact`.
- A collector that panics loses requests and can leave admission closed for good (`CollectionControl.PanicWindow`).
  Every request is answered if and only if it never panics (`CollectionControl.Drained`), and admission is closed for
  good if and only if a second request is trapped behind the panic (`CollectionControl.AdmissionExact`).
- A refused refresh can have changed the learned rows (`TrackerRuns.RefusedRefreshChanges`); a refused request leaves
  the state unchanged if and only if it is not a refresh that read something new (`TrackerRuns.RefusedUnchanged`).
- The status table can be ahead of the completed and aborted responses (`RequestAccounting.TableAhead`); it adds up to
  them if and only if no guard is half-way through recording (`RequestAccounting.Accounting`).

Verify with `dafny verify dfyconfig.toml`.

## Model

| member | source | states |
|---|---|---|
| NarArchive.DecodeExact | src/nar.rs:267-402 | The decoder accepts a stream if and only if the stream is the archive of a tree with valid, strictly increasing names and lawful link targets that meets all seven limits and nothing follows it; the events are then that tree's traversal with file bodies cut at 64 KiB, and the summary is its kind, size, hashed bytes and counts |
| NarArchive.AcceptsArchive | src/nar.rs:293-465 | Completeness for one tree: every stream carrying the archive of a tree within the limits is accepted, with that tree's events and summary |
| NarArchive.AcceptedIsArchive | src/nar.rs:293-465 | Soundness: whatever is accepted carries exactly the archive of the tree that was reported, and the tree is within the limits |
| NarArchive.EveryRunBounded | src/nar.rs:329-390 | For every reader, also an endless or failing one: the decoder stops with an error unless the input ends, never counts past the total-size limit, reports at most the allowed number of entry names, and even a refused decode has reported only events the limits permit |
| NarArchive.ArchiveDetermines | src/nar.rs:267-291 | Two trees with the same archive differ at most in how file bodies are cut |
| NarLayout.ArchiveLayout | src/nar_encode.rs:143-144 | An archive is the list of its tokens, the version first, each framed in turn, and so a multiple of eight bytes long |
| NarLayout.StrLayout | src/nar_encode.rs:474-484 | A frame is the length, least significant byte first, the bytes, and zeros up to the nearest multiple of eight |
| NarLayout.CutExact | src/nar.rs:515-549 | A body is cut into pieces of 64 KiB and a shorter last one that is not empty, which join to the body |
| NarNames.NameExact | src/nar.rs:619-629 | An entry name is valid if and only if it holds no NUL and, followed as a path from any directory, leads to that directory's own child of that name |
| Lexicographic.LessExact | src/nar.rs:32-37 | One name comes before another if and only if, at the first place they differ, it has the smaller byte or has ended |
| NarRoundTrip.UnlimitedExact | src/nar.rs:100-120 | With no limits other than 64-bit counters, the accepted streams are exactly the archives of well-formed trees |
| NarRoundTrip.DecodeAfterEncode | src/nar_encode.rs:152-186 | Any event sequence taken to a successful finish decodes under the same limits, with equal root, size, hashed bytes and counts, and the same events but for chunk boundaries |
| NarRoundTrip.EncodeAfterDecode | src/nar_encode.rs:188-356 | The events of an accepted stream, fed to an encoder with the same limits except on work, are accepted if and only if the work limit allows one unit for each event, and then the output is the stream byte for byte |
| NarRoundTrip.OneEncoding | src/nar.rs:593-629 | Streams accepted with equal events are equal byte for byte: a tree has one accepted encoding |
| NarRoundTrip.AllowedLooser | src/nar.rs:81-120 | A tree allowed under some limits is allowed under looser ones |
| NarCodec.EncodeExact | src/nar_encode.rs:152-186 | The encoder takes events to a successful finish if and only if they spell a canonical tree within the limits, and has then written that tree's archive with that tree's summary |
| NarCodec.EncodesTree | src/nar_encode.rs:188-356 | The traversal of any tree that fits is accepted to the end |
| NarCodec.EncodedIsTree | src/nar_encode.rs:169-186 | Every sequence taken to a successful finish is the traversal of one tree within the limits |
| NarCodec.WorkExact | src/nar_encode.rs:401-411 | The encoder's work for a tree is the decoder's plus one for each file and each chunk |
| NarCodec.StripTrace | src/nar.rs:153-190 | What the decoder reports of a tree, without depths and offsets, is the event sequence of the tree re-cut at the chunk size |
| NarCodec.UnchunkTree | src/nar.rs:515-549 | Re-cutting changes nothing but chunk boundaries |
| NarFileRanges.FilesDelivered | src/nar.rs:439-549 | For every file of an accepted archive, the non-empty chunks of at most 64 KiB concatenate to the input bytes at the announced offset and size, and the ranges of successive files are disjoint and increasing |
| NarGrammar.Decode | src/nar.rs:267-291 | Decoding moves only forwards, on errors as well: the byte count stays within its limit, and the events reported are ones the limits permit with no more entry names than entries counted or allowed |
| NarGrammar.ParseNode | src/nar.rs:293-316 | The recursive grammar of a node keeps every limit in every state it can stop in |
| NarGrammar.ParseEntries | src/nar.rs:351-390 | The recursive grammar of a directory's entries keeps every limit in every state it can stop in |
| NarTokens.StringComplete | src/nar.rs:557-604 | A length-prefixed, zero-padded string within its limit is read, and read whole |
| NarTokens.StringSound | src/nar.rs:557-604 | A string is read only from its one encoding, with zero padding |
| NarTokens.ExpectExact | src/nar.rs:606-617 | An expected token is accepted if and only if the stream holds its encoding |
| NarTokens.KindExact | src/nar.rs:318-327 | The three node kinds are told apart by their tokens, and nothing else is taken for one |
| NarTokens.StreamComplete | src/nar.rs:515-549 | The body of a file is streamed whole, in chunks cut at 64 KiB |
| NarTokens.StreamSound | src/nar.rs:515-549 | What was streamed is what the stream holds at that place |
| NarTokens.LinkSound | src/nar.rs:484-513 | An accepted link holds a non-empty target without NUL within its limit |
| NarTokens.NameComplete | src/nar.rs:404-437 | An entry whose name is valid and follows the previous one is accepted while entries remain |
| NarTokens.NameSound | src/nar.rs:404-437 | An accepted entry has a valid name strictly after the previous one |
| NarDecoding.NodeComplete | src/nar.rs:329-402 | A stream that holds a tree's bytes is parsed to that tree, leaving the state its counts and events say |
| NarDecoding.NodeSound | src/nar.rs:329-402 | Whatever is parsed as a node is a tree within the limits whose bytes the stream holds |
| NarDecoding.EntriesComplete | src/nar.rs:351-437 | The same for the entries of a directory, in order |
| NarDecoding.EntriesSound | src/nar.rs:351-437 | Whatever is parsed as entries is an ordered list of entries whose bytes the stream holds |
| NarDecoder.ResumeLeaf | src/nar.rs:372-390 | Popping the explicit stack agrees with the grammar's recursion: after a leaf the enclosing directory goes on |
| NarDecoder.ResumeDirectory | src/nar.rs:372-390 | Pushing a frame agrees with the grammar's recursion: a nested directory is parsed first and its parent resumes behind it |
| NarDecoder.ResumeFailed | src/nar.rs:372-390 | A child that cannot be read fails the whole in the same way and the same state |
| NarDecoder.Decoder.constructor | src/nar.rs:239-265 | A new decoder has read and reported nothing |
| NarDecoder.Decoder.CheckedRawByteCount | src/nar.rs:700-720 | The new byte count, or the total-size or overflow error the grammar gives |
| NarDecoder.Decoder.ReadInto | src/nar.rs:686-698 | Fills the buffer with the next bytes and counts them, or ends as the grammar does |
| NarDecoder.Decoder.ReadLength | src/nar.rs:551-555 | Reads the little-endian length the grammar reads |
| NarDecoder.Decoder.ReadBoundedStringLength | src/nar.rs:578-591 | Refuses a length past the limit or past what the total size leaves, before reading further |
| NarDecoder.Decoder.SkipPadding | src/nar.rs:593-604 | Accepts only zero padding |
| NarDecoder.Decoder.ReadStringInto | src/nar.rs:557-562 | Reads one padded string as the grammar does |
| NarDecoder.Decoder.ReadControlToken | src/nar.rs:564-576 | Reads a token into the reused buffer; bytes of earlier tokens do not show |
| NarDecoder.Decoder.ExpectToken | src/nar.rs:606-617 | Ends as the grammar's expectation does |
| NarDecoder.Decoder.Bump | src/nar.rs:631-641 | Counts one unit of work up to its limit |
| NarDecoder.Decoder.ReadNodeKind | src/nar.rs:318-327 | Returns the kind the grammar reads |
| NarDecoder.Decoder.ReadExecutableFlag | src/nar.rs:467-482 | Returns the flag the grammar reads |
| NarDecoder.Decoder.ReadFileChunk | src/nar.rs:527-549 | Reports the next chunk of at most 64 KiB from the reused buffer |
| NarDecoder.Decoder.StreamFileContents | src/nar.rs:515-525 | The loop over chunks reports what the grammar streams, and ends when nothing remains |
| NarDecoder.Decoder.DecodeRegularFile | src/nar.rs:439-465 | A regular node as the grammar has it, counted once |
| NarDecoder.Decoder.DecodeSymlink | src/nar.rs:484-513 | A link node as the grammar has it, counted once |
| NarDecoder.Decoder.DecodeNode | src/nar.rs:293-316 | Starts a node as the grammar does: a directory is opened, a leaf finished, depth and work checked first |
| NarDecoder.Decoder.ReadNextEntryName | src/nar.rs:404-437 | The next entry's name, or the directory's end, as the grammar has it |
| NarDecoder.Decoder.ReadOrderedName | src/nar.rs:26-43 | Accepts a valid name after the previous one and makes it the previous one |
| NarDecoder.Decoder.DecodeChildOrEnd | src/nar.rs:351-370 | One turn of the loop: the rest of the grammar's parse from the frames before it equals the rest from the frames after it, the stack stays within the depth limit, and the byte count grows |
| NarDecoder.Decoder.DecodeChildNode | src/nar.rs:372-390 | The child of an entry: a directory goes on top of the stack, a leaf is closed, the remaining parse unchanged |
| NarDecoder.Decoder.DecodeFrames | src/nar.rs:339-347 | The loop over the explicit stack ends as the recursive grammar does, result, error and state alike, and the stack has never held more frames than the depth limit |
| NarDecoder.FrameStack.Push | src/nar.rs:380-384 | The stack grows by the frame and remembers the most it ever held |
| NarDecoder.Decoder.DecodeTree | src/nar.rs:329-349 | The tree is decoded as the recursive grammar does it, result, error and state alike |
| NarDecoder.Decoder.DecodeArchive | src/nar.rs:267-291 | The whole decoder ends as the specification `Decode` does and returns its summary |
| NarEncoding.PushEvent | src/nar_encode.rs:152-167 | An event, accepted or refused, only appends to the output, takes back no counter, and keeps output and entries within their limits; it is accepted only within the work limit |
| NarEncodes.RunNode | src/nar_encode.rs:188-356 | From any state where a tree may start and fits, its traversal is accepted, appends exactly its bytes and closes into its parent |
| NarEncodes.RunEntries | src/nar_encode.rs:198-264 | The same for the entries of an open directory |
| NarBuilding.EventSound | src/nar_encode.rs:152-167 | One accepted event keeps the description of the state by a path of partial nodes: output, stack, counters and events all those of the path |
| NarBuilding.RunSound | src/nar_encode.rs:152-186 | So every accepted run describes a partial or complete tree |
| NarBuilding.NothingAfterRoot | src/nar_encode.rs:358-400 | After the root is complete no event is accepted |
| NarEncoder.StackShape | src/nar_encode.rs:88-103 | On every run without a refusal, all nodes below the top are directories with an open child, a regular node is only ever on top, the stack is empty exactly when the root has not begun or is complete, and it never passes the depth limit |
| NarEncoder.GuardsNeverReported | src/nar_encode.rs:413-468 | The refusals that guard the encoder's own bookkeeping are never reported on such a run |
| NarEncoder.Encoder.constructor | src/nar_encode.rs:125-150 | A new encoder has written the magic token, or refused if it does not fit |
| NarEncoder.Encoder.Bytes | src/nar_encode.rs:486-508 | Appends the bytes, or refuses past the total-size limit |
| NarEncoder.Encoder.Begin | src/nar_encode.rs:358-392 | A node begins where the step functions say it may |
| NarEncoder.Encoder.CloseDirectoryEntry | src/nar_encode.rs:446-460 | Closes the open entry of a directory and remembers its name; the arms marked unreachable are proved dead |
| NarEncoder.Encoder.FinishNode | src/nar_encode.rs:418-431 | Closes a node and its entry, or completes the root |
| NarEncoder.Encoder.HandleEntry | src/nar_encode.rs:198-264 | A named entry as the step functions have it |
| NarEncoder.Encoder.HandleFileChunk | src/nar_encode.rs:291-307 | A chunk counts down the declared size; the arm marked unreachable is proved dead |
| NarEncoder.Encoder.HandleEndFile | src/nar_encode.rs:309-322 | A file ends only when all declared bytes were written |
| NarEncoder.Encoder.Push | src/nar_encode.rs:152-167 | Updates in place to the state the step functions give, or refuses with their error |
| NarEncoder.Encoder.Finish | src/nar_encode.rs:169-186 | Succeeds if and only if the accepted events spell a whole tree within the limits, and then the writer holds exactly its archive |
| CollectionControl.Reached | src/control.rs:142-201 | In every reachable state, each request read is in exactly one place: with a thread, queued, recorded or lost to a panic |
| CollectionControl.BusyExact | src/control.rs:235-303 | While the collector has not panicked, `busy` holds exactly when one job is being sent, queued or collected, never more than one is, and admission is never given back by the dispatcher |
| CollectionControl.SendSucceeds | src/control.rs:291-303 | Hence the send never meets a full or closed queue |
| CollectionControl.OnePlace | src/control.rs:247-308 | No request gets two outcomes, malformed ones get none, and none is lost without a panic |
| CollectionControl.Drained | src/control.rs:151-170 | When both threads have ended, every request has exactly one recorded outcome if and only if the collector never panicked, and it is then the one its history calls for; a panic loses at most two |
| CollectionControl.Answered | src/control.rs:160-308 | From every reachable state without a panic, in every interleaving, with or without shutdown: once each thread has done as many actions as the place of a request calls for, and no panic came between, the request has exactly one recorded outcome, the one its history calls for |
| CollectionControl.NeverWaits | src/control.rs:160-308 | A request without an outcome never waits: the dispatcher that has it, or else the collector, can act; two actions of the dispatcher and eleven of the collector are always enough |
| CollectionControl.OutcomesRight | src/control.rs:44-61 | In every reachable state every record holds the outcome its history calls for: the report made while collecting it, `Busy` if the admission was taken, and a failure if shutdown or a closed queue came first, whichever was first |
| CollectionControl.DispatcherExact | src/control.rs:247-275 | The dispatcher ends at a raised flag or a fatal error and at nothing else, and reads a request exactly when one arrives |
| CollectionControl.ShutdownBounded | src/control.rs:217-245 | Once the local or the daemon's stop flag is up, every interleaving takes a bounded number of thread actions |
| CollectionControl.NoDeadlock | src/control.rs:243-275 | Some thread can act until both have ended |
| CollectionControl.PanicWindow | src/control.rs:235-241 | A reachable state after a panic, without shutdown, where two requests are lost: however the threads go on, neither gets an outcome and `busy` stays set |
| CollectionControl.AdmissionExact | src/control.rs:277-303 | In every reachable state `busy` stays set for good if and only if a second request is lost, or queued behind a panicked collector that is about to close the queue; once the collector has ended, if and only if two requests are lost |
| NixBase32.DecodeAfterEncode | src/object.rs:44-63 | Printing a 32-byte digest and parsing it gives the digest |
| NixBase32.EncodeAfterDecode | src/object.rs:44-63 | Every accepted text is the print of its digest |
| NixBase32.AcceptedTexts | src/object.rs:393-410 | The accepted texts are exactly those of 52 alphabet symbols whose first is `0` or `1` |
| NixBase32.SymbolsDistinct | src/object.rs:419-429 | No symbol stands for two digits |
| NixBase32.TurnRound | src/object.rs:400-416 | The symbols end in reverse order, exchanged in place |
| NixBase32.EncodeNix32 | src/object.rs:412-417 | The array filled and reversed in place holds the digest's base-32 numeral |
| NixBase32.DecodeSha256 | src/object.rs:393-410 | The conversion through a reversed array gives the digest the numeral denotes, and refuses exactly what the specification refuses |
| NarObjects.FileNameRoundTrip | src/object.rs:228-272 | Every payload name, with any of the three suffixes, is read back to what it was printed from |
| NarObjects.FileNameCanonical | src/object.rs:230-242 | Every accepted payload name is printed back as it was read |
| NarObjects.SuffixesDiffer | src/object.rs:230-242 | No name ends in two of the suffixes, so the order they are tried in does not matter |
| NarObjects.FieldsRoundTrip | src/narinfo.rs:777-805 | A representation's own fields give it back, unless its archive is said to be empty |
| NarObjects.FieldsSound | src/narinfo.rs:777-805 | Fields that are accepted are those of the representation they give |
| StorePaths.PathTame | src/narinfo.rs:26-48 | A valid path is its prefix and its basename, contains nothing that separates fields, lines or references, and its basename parses back to it |
| StorePaths.BasenameTame | src/storage/ids.rs:30-45 | A valid basename is longer than a store hash, holds no separators and is never the unknown-deriver text |
| StorePathForms.PathExact | src/narinfo.rs:26-34 | The store paths are exactly the texts `/nix/store/<hash>-<name>` with 32 base-32 symbols and a name of 1 to 211 allowed characters whose first word is not one or two dots; hash and basename are those parts |
| Text.BeforeExact | src/narinfo.rs:906-918 | One text comes before another if and only if, at the first place they differ, it has the smaller character or has ended |
| Text.U64Exact | src/narinfo.rs:254-294 | A size is parsed exactly from a decimal number below 2^64, perhaps after a plus sign and noughts |
| Sorting.SortDedupSound | src/narinfo.rs:906-918 | Sorting and dropping repeats gives an ascending sequence of the same elements |
| Sorting.OrderAndRepeatsIrrelevant | src/narinfo.rs:118-135 | Sequences with the same elements give the same result, whatever their order and repeats |
| NarInfoDocument.RecordExact | src/narinfo.rs:486-514 | Lines are accepted if and only if no field other than a signature is given twice, and the document then says what the lines say |
| NarInfoDocument.DocumentEntries | src/narinfo.rs:470-500 | Every text the strict reader accepts is a list of known fields, one to a line, none given twice, and the document says what they say |
| NarInfoDocument.EntriesRead | src/narinfo.rs:470-484 | A text made of such lines is read back to them |
| NarInfoDocument.StrictIsLenient | src/narinfo.rs:462-468 | The lenient reader says the same of every text the strict reader accepts |
| NarInfo.NewClaimsValid | src/narinfo.rs:118-135 | Claims made of valid paths have ascending, valid references |
| NarInfo.ReferencesRoundTrip | src/narinfo.rs:906-918 | The references field is parsed back to the references |
| NarInfo.ReferencesValid | src/narinfo.rs:906-918 | Whatever is parsed as references is ascending and made of valid paths |
| NarInfo.DeriverRoundTrip | src/narinfo.rs:57-77 | The deriver field is parsed back to the deriver, known or unknown |
| NarInfo.ContentAddressTame | src/narinfo.rs:937-964 | A valid content address keeps to one line |
| NarInfo.SignatureTame | src/narinfo.rs:687-703 | A well-formed signature keeps to one line |
| NarInfoMetadata.BoundedWriter.Write | src/narinfo.rs:885-899 | A write is refused whole exactly when it would pass the limit in UTF-8 bytes, and otherwise appends |
| NarInfoMetadata.SerializeMetadata | src/narinfo.rs:338-401 | Writing line by line into the bounded writer succeeds exactly when the archive identities agree and the whole text fits, and then gives the whole text |
| NarInfoMetadata.WriteSignatures | src/narinfo.rs:393-395 | The loop over signatures appends one line each, or stops where no longer text could fit |
| NarInfoParsing.EntriesDistinct | src/narinfo.rs:378-401 | Printed metadata gives no field twice |
| NarInfoParsing.DocumentStates | src/narinfo.rs:378-401 | What was printed is what the document states, field by field |
| NarInfoParsing.ClaimsRead | src/narinfo.rs:254-294 | The claims a document states are parsed back under their store hash, exactly if the archive is not empty |
| NarInfoParsing.PayloadRead | src/narinfo.rs:535-561 | The payload a document states is parsed back, exactly if the archive is not empty |
| NarInfoParsing.MetadataRead | src/narinfo.rs:355-376 | Deriver, content address and signatures are parsed back |
| NarInfoRoundTrip.RoundTrip | src/narinfo.rs:338-402 | Text that was successfully serialized fits the parser's size limit, and is parsed under its store hash to the same metadata and the same representation if and only if the archive size is not zero and there is at least one signature and all are well formed |
| NarInfoRoundTrip.ParsedValidMetadata | src/narinfo.rs:737-748 | Everything accepted is valid metadata under the requested store hash, not empty, signed, with the payload's identity that of the claims |
| NarInfoReprint.ReprintNoLonger | src/narinfo.rs:737-748 | Whatever is accepted prints in no more bytes than it was parsed from: sizes lose a plus sign and leading zeros, references lose repeats, the other fields are equal, in any order of lines |
| NarInfoReprint.ReprintStable | src/narinfo.rs:338-346 | Printing what was parsed always fits the size limit and gives a text that parses the same way again |
| NarInfoRoundTrip.ExternalClaims | src/narinfo.rs:186-193 | A peer reads the printed claims whether or not the document is signed |
| NarInfoAccepts.DocumentExact | src/narinfo.rs:470-514 | Either reader accepts a text if and only if it ends in a newline, every line has a name, a known one for the strict reader, and no field is given twice; the document is what the known lines say |
| NarInfoAccepts.ReferencesExact | src/narinfo.rs:906-918 | References are parsed exactly from the basenames of store paths with single blanks between them, and are those paths sorted and given once |
| NarInfoAccepts.ClaimsExact | src/narinfo.rs:254-294 | A document is taken to make claims if and only if its fields say them, under the requested hash, of a non-empty archive |
| NarInfoAccepts.PayloadExact | src/narinfo.rs:535-561 | The payload of a document is the one, if any, that URL, compression, file hash, file size and identity agree on |
| NarInfoAccepts.AddressExact | src/narinfo.rs:937-964 | The content addresses are exactly a method, an algorithm, and a digest of that algorithm's size in hexadecimal, base 32 or base 64 |
| NarInfoAccepts.SignatureExact | src/narinfo.rs:674-703 | The well-formed signatures are exactly a key name and 64 bytes in base 64 |
| NarInfoAccepts.PublicationExact | src/narinfo.rs:737-748 | A text is published as metadata and payload if and only if it is such a document of at most a mebibyte without carriage returns and its fields say just that |
| NarInfoAccepts.ExternalExact | src/narinfo.rs:186-193 | A peer takes claims from a text if and only if the known fields of such a document say them, where unknown fields are passed over and missing references are none |
| Fingerprints.BuildFingerprint | src/narinfo.rs:920-935 | The loop over references builds the specified text |
| Fingerprints.FingerprintsAgree | src/narinfo.rs:218-234 | Two valid claims have equal fingerprints if and only if the comparison of claims finds no difference |
| Fingerprints.FingerprintIgnoresOrder | src/narinfo.rs:118-135 | Reordering or repeating the given references does not change the fingerprint |
| TrackerRuns.ReachableBounded | src/peerix_tracker.rs:239-359 | After any sequence of announces, batches, deltas, refreshes and finds, every table is within its bound of rows |
| TrackerRuns.StepBounded | src/peerix_tracker.rs:122-171 | Each request keeps every table within its bound |
| TrackerBodies.AnnounceAccepted | src/peerix_tracker.rs:219-275 | An announcement is accepted if and only if its peer id is plain, its port fits 16 bits, the client has an address, its packages are at most 200,000 store hashes, and both tables it touches have room |
| TrackerBodies.NodeAccepted | src/peerix_tracker.rs:277-306 | A node is accepted exactly under the like conditions on its ids, relay and direct addresses, and is stored with them |
| TrackerBodies.BatchAccepted | src/peerix_tracker.rs:308-326 | A batch is accepted exactly for a plain peer id, a lawful list of hashes, and room |
| TrackerBodies.DeltaAccepted | src/peerix_tracker.rs:328-359 | So is a delta, for two lawful lists |
| TrackerBodies.FindAccepted | src/peerix_tracker.rs:154-171 | A search is accepted exactly for a store hash, and stores the providers of a readable reply while there is room |
| TrackerBodies.PeerLearned | src/peerix_tracker.rs:617-635 | An upstream peer is learned exactly if its id and address are plain and its port fits 16 bits, with the fields it gives |
| TrackerBodies.NodeLearned | src/peerix_tracker.rs:637-665 | An upstream node is learned exactly if its ids and address are plain, with the first 32 of its plain direct addresses |
| TrackerBodies.LastSeenKept | src/peerix_tracker.rs:749-767 | A time that upstream gives and that can be represented is kept, and otherwise it is now |
| TrackerRuns.RefusedUnchanged | src/peerix_tracker.rs:122-359 | A refused request, of whatever kind, leaves the state unchanged if and only if it is not a refresh with a readable reply that differs from the table held |
| TrackerRuns.RefreshExact | src/peerix_tracker.rs:122-152 | A refresh replaces each learned table by its own reply where that can be read, succeeds if and only if both can be read, changes nothing if and only if the readable replies give the tables already held, and never touches announced rows or providers |
| TrackerRuns.RefusedRefreshChanges | src/peerix_tracker.rs:133-146 | A refresh that reads the peers and not the nodes is refused and has replaced the learned peers |
| TrackerRuns.EditStep | src/peerix_tracker.rs:239-359 | An accepted request edits the package set of the one peer its body names by the hashes its body names, and of no other |
| TrackerRuns.PackagesFold | src/peerix_tracker.rs:239-359 | After any run, a peer's package set is the fold of the replacements and of the `(old - removed) + added` deltas that the bodies of its accepted requests name |
| TrackerViews.PeersShrink | src/peerix_tracker.rs:361-380 | For fixed tables, the ids in the peers list only shrink as time advances |
| TrackerViews.ProvidersShrink | src/peerix_tracker.rs:409-448 | So do the ids of a hash's providers, though rows change from local to learned |
| TrackerViews.IrohShrinkExact | src/peerix_tracker.rs:382-407 | The ids in the iroh list only shrink, for all times, if and only if every learned node of a peer also announced here is no more recent than some local row of that peer, or is announced here itself as recently as any of them |
| TrackerViews.IrohIdsCanGrow | src/peerix_tracker.rs:382-407 | After an announcement and a refresh, a learned node reappears when the local node hiding it goes stale |
| TrackerViews.ListedRowsFresh | src/peerix_tracker.rs:776-781 | No document lists a stale row |
| TrackerViews.LocalRowsWin | src/peerix_tracker.rs:361-448 | A peer with a fresh local row is listed by it, and as a provider with its address, port and time |
| TrackerViews.AnnounceTold | src/peerix_tracker.rs:219-275 | An accepted announcement is listed until it goes stale with the client's address and the body's port, and as a provider of every package it names |
| TrackerViews.BatchTold | src/peerix_tracker.rs:308-326 | After an accepted batch the peer offers, while fresh, exactly the hashes its body names |
| TrackerViews.DeltaTold | src/peerix_tracker.rs:328-359 | After an accepted delta the peer offers, while fresh, exactly the hashes added and, of those it had, the ones not removed |
| TrackerViews.LearnedTold | src/peerix_tracker.rs:411-431 | Where no fresh local row stands in, a learned provider of a hash is told exactly when a row of it is fresh, and by the last such row |
| TrackerViews.LastItemWins | src/peerix_tracker.rs:566-578 | A learned table holds exactly the ids of readable items, each with the row of the last such item |
| Listings.SortedLists | src/peerix_tracker.rs:378-380 | Sorting the collected rows lists the table: each id once, ascending, with its row |
| Listings.ListedOnce | src/peerix_tracker.rs:378-380 | A table is listed one way only |
| TrackerService.Tables.Announce | src/peerix_tracker.rs:219-237 | Updates the tables in place to the specified state, or refuses |
| TrackerService.Tables.RecordAnnounce | src/peerix_tracker.rs:239-275 | Both room checks come before either table is changed |
| TrackerService.Tables.AnnounceIroh | src/peerix_tracker.rs:277-306 | Updates the node table in place to the specified state, or refuses |
| TrackerService.Tables.Batch | src/peerix_tracker.rs:308-326 | Replaces the peer's packages, or refuses |
| TrackerService.Tables.Delta | src/peerix_tracker.rs:328-359 | The two loops make `(old - removed) + added` of the peer's packages, or the request is refused |
| TrackerService.Tables.RefreshWith | src/peerix_tracker.rs:122-152 | Replaces each learned table by its own reply where that can be read |
| TrackerService.Tables.StoreLearnedProviders | src/peerix_tracker.rs:162-171 | Stores the providers of a hash while there is room or the hash is known |
| TrackerService.ReadPeers | src/peerix_tracker.rs:566-578 | The loop over listed peers gives the table in which later rows replace earlier ones |
| TrackerService.ReadNodes | src/peerix_tracker.rs:580-592 | The same for listed nodes |
| TrackerService.ReadProviders | src/peerix_tracker.rs:594-606 | The loop over listed providers gives the readable ones in the order listed |
| TrackerService.Tables.PeersDocument | src/peerix_tracker.rs:361-380 | The two loops and the sort list exactly the fresh local rows and the fresh learned rows no fresh local row overrides, each id once, in order |
| TrackerService.Tables.IrohDocument | src/peerix_tracker.rs:382-407 | Lists exactly the fresh local nodes and the fresh learned nodes whose node and peer are not local |
| TrackerService.Tables.LearnedProviders | src/peerix_tracker.rs:411-431 | The loop keeps, for each peer, the last listed provider that is fresh once merged with its fresh local row |
| TrackerService.Tables.ProvidersDocument | src/peerix_tracker.rs:409-448 | Lists exactly the peers that offer the hash here and the fresh learned providers, local rows first |
| DirectoryScan.BoundedDirectoryNames | src/peer_share.rs:445-469 | The scan returns exactly the first `limit` of the sorted names, with repeats and for limit zero; it stops or fails exactly when a stop is seen or an entry cannot be read first |
| DirectoryScan.ScanInto | src/peer_share.rs:450-465 | The same into an empty heap, which has at no moment held more than `limit` names |
| DirectoryScan.NameHeap.Push | src/peer_share.rs:460-463 | The heap grows by the name and remembers the most it ever held |
| DirectoryScan.SelectedIsFront | src/peer_share.rs:445-469 | Names none of which comes after a discarded one are the front of the sorted whole |
| DirectoryScan.KeptSmaller | src/peer_share.rs:461-464 | Replacing the largest held name by a smaller one keeps the selection |
| PeerShare.OfferDescribes | src/peer_share.rs:308-328 | An offered document is read under its path's hash as that path with that archive hash, exactly if upstream's document matched or the archive size is not zero |
| PeerShare.OfferExact | src/peer_share.rs:308-328 | A path is offered with upstream's document if and only if that is read under the path's hash as claims about that path and archive hash; otherwise it is kept back unless publishing all, a key and known references let it be signed here |
| PeerShare.KeptBack | src/peer_share.rs:318-320 | Without leave to publish all, a path is offered with a document if and only if that is upstream's own and confirms the path |
| PeerShare.SignedExact | src/peer_share.rs:374-393 | Signing fails exactly when a reference is no store path or the text is longer than a mebibyte, and gives otherwise the path's own claims with the signature of their fingerprint |
| PeerShare.SignedReadBack | src/peer_share.rs:374-393 | A signed document is parsed back to those claims and that signature |
| PeerShare.OffersExact | src/peer_share.rs:223-258 | The index has exactly the store hashes of the paths so offered, each with the document of the last such path |
| PeerShare.SignedDescribes | src/peer_share.rs:374-393 | A document signed here is read back so, exactly if the archive size is not zero |
| PeerShare.ShareIndex.RefreshFrom | src/peer_share.rs:212-268 | All or nothing: stopping or a failed listing leaves the index as it was; on completion it holds the documents of the paths up to the first that does not fit, and of all paths if none is reported over the limit, each offered exactly as settings and upstream allow, and reports the first failures to fetch and to sign among them |
| PeerShare.Decide | src/peer_share.rs:223-258 | The loop considers paths in order, stopping exactly at a stop request or at the first path without room, and keeps the first failures to fetch and to sign |
| PeerShare.BudgetsHold | src/peer_share.rs:232-256 | Both budgets hold of the index, even when paths share a store hash |
| PeerShare.HashedTree | src/push/mod.rs:41-51 | A path hashed by the encoder has the size and the digest of the archive of some tree, and that size is more than 24 bytes |
| PeerShare.OfferedDocuments | src/peer_share.rs:365-393 | When every listed path is hashed by the encoder, as listing does, every document of the index is read under its key as a listed path and names the digest of the archive of the tree found there |
| TrafficSamples.Ring.Record | src/metrics.rs:2244-2248 | Records the sample in place, forgetting the oldest when full |
| TrafficSamples.Ring.ChronologicalSamples | src/metrics.rs:2257-2263 | After any number of records, yields exactly the last 61 samples or all of them, in order |
| TrafficSamples.Ring.RateOver | src/metrics.rs:2265-2301 | The rate over the window, from the first retained sample inside it |
| TrafficSamples.CoverageMaximal | src/metrics.rs:2265-2301 | With times in order, coverage is positive, at most the window, and as much of it as the retained samples allow, and each rate times the coverage is what was moved since the sample it is measured from; the request and processor rates are there exactly when both samples have the figure and it did not fall |
| TrafficSamples.NoRate | src/metrics.rs:2265-2301 | There is no rate exactly when nothing was recorded, the counters overflowed, or from the oldest sample in the window no time has passed or a byte counter fell |
| RequestAccounting.Accounting | src/metrics.rs:398-406 | In every interleaving of fewer than 2^64 requests: created = unfinished + completed + aborted, in flight = guards not yet dropped, the status table adds up to completed + aborted + the guards half-way through recording, and so to completed + aborted if and only if there is none; completed and aborted are the requests whose first call was of that kind |
| RequestAccounting.CountersAsCalled | src/metrics.rs:2814-2915 | In every such interleaving, completed counts the requests whose first recording call was a completed response, aborted those whose first was a failed or aborted response or the drop, and each status cell those made with its method and route whose first call records its status |
| RequestAccounting.TableAhead | src/metrics.rs:2814-2830 | A run after which one response is in the status table and in neither outcome counter |
| RequestAccounting.StepCounted | src/metrics.rs:2784-2915 | Each atomic operation keeps every counter equal to the guards it counts, up to its wrap-around or saturation |
| RequestAccounting.OutcomeStays | src/metrics.rs:2814-2895 | Once decided, what a guard is recorded as never changes, whatever is called on it later |
| RequestAccounting.DroppedCounted | src/metrics.rs:2897-2915 | A guard that is gone was counted |

## Left out

- Event sinks and writers that fail: events go to a list and bytes to a sequence, which always take them.
- SHA-256, Ed25519 and the compressors: hashing is the sequence of bytes hashed, signing a function of the fingerprint.
- Base 64: a function from texts to decoded lengths, assumed only to take no characters outside its alphabet and padding.
- Allocation failure, the trimming of oversized buffers, and retries after an interrupted read.
- UTF-8 decoding of narinfo bytes: documents are texts, and only their length is counted in bytes.
- Transport of external narinfo documents, which needs a URI parser, and the trust decision over signatures.
- Serving archives to peers, and looking a path up by the URL in its document.
- Reading store paths and their references from disk and from the Nix database: the listing is a parameter,
  whose paths are assumed hashed by the encoder where that matters.
- HTTP routing and JSON parsing in the tracker: requests are parsed values, addresses and times are parameters.
- Last-seen times and rates are real numbers, without the rounding of floating point.
- The text of warnings and of metrics exposition, latency histograms, byte counters and the other samplers.
- Socket handling, request framing and the collection itself in online control: a request arrives whole or malformed.
- Storage, garbage collection, publication, inventory, configuration and the command line.
- The library's sort, binary heap, hash maps and hash sets: an insertion sort, a multiset, and finite maps and sets.
- The text of upstream errors in a tracker refresh, which is only logged.
