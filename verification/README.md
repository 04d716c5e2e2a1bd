# The router core, modelled and proved

Apache Qpid Dispatch is an AMQP 1.0 message router written in C. Its speed rests on a few
pieces of code that replace something simple by something fast and stateful: a set of address
patterns by a trie with a shared hash, an octet sequence by chains of buffers and cursors, a
message by buffers with reference counts, a memory pool by per-thread lists with batch
rebalancing. This project models those pieces in Dafny and proves that each behaves as the
simple thing it stands for.

Each piece comes as a reference (functions on values), the code as it runs (methods with loops,
classes with fields) proved equal to the reference, and the properties of the reference over
all inputs, all runs or all reachable states.

| files | what they model |
|---|---|
| `Patterns`, `PatternForms`, `TokenText`, `TokenSpelling`, `PatternSearch`, `PatternOrder`, `HashTable`, `PatternStore`, `ParseTree` | wildcard patterns: meaning, text, normal form, the trie and its hash, search and the order of its reports |
| `Octets`, `Amqp`, `Compose`, `BufferField`, `Parse`, `RoundTrip`, `Readers`, `StandardTypes` | the AMQP codec over buffer chains, and the encodings of the standard |
| `Annotations`, `AnnotationTypes`, `Hops`, `Traces`, `AnnotationCode` | router annotations over any number of hops, and the radius test |
| `Sections`, `SectionCode`, `Recognition`, `Arriving`, `WrongTypes` | section recognition while a message arrives |
| `Fanout`, `FanoutCode`, `Freeing`, `Protection` | one content sent to many receivers, when its buffers are freed, and those that parsed sections keep |
| `Delivery` | a message from one router to the next, end to end |
| `StreamData` | body data cut into sections |
| `AllocStack`, `AllocPool`, `AllocLives`, `AllocCode` | the pooled allocator, for any number of threads |
| `PrefixLookup` | longest-prefix lookup by segment hashes |
| `Policy`, `PolicySpelling` | link-name rules: compile and approve |
| `Seqs`, `Options` | sequence facts and the option type that the others share |

`dafny verify dfyconfig.toml` checks the whole project.

Some properties one would expect are false of the code. They are stated here as they are, with
the exact condition:

- A pattern ending in `#.#` is reported too rarely unless it is normalized
  (`Patterns.ReportsAreAlignmentsIff`).
- Of two stored patterns the search reports the more specific one first if and only if the other
  does not overtake it at a `#` they share before their first difference
  (`PatternOrder.SearchOrder`, for any number of `#`). With no such `#` that never happens. If
  their only `#` is such a one, it happens exactly if the more specific one is the shorter one
  (`PatternOrder.OneGlobOrder`). `PatternSearch.GlobHidesPrecedence` is an example. Which of the two
  is reported first of all has its own exact condition (`PatternOrder.FirstOrder`).
- Compose then parse fails exactly on maps with an odd number of elements
  (`RoundTrip.ComposeParseIff`).
- The next router reads the received trace followed by this router if and only if no octets lie behind
  the elements of the received list, or those happen to spell this router's id
  (`Traces.TraceAfterHop`; `Traces.TraceWithLeftover` has an input where it reads another id).
- A section is passed over as a whole if and only if its size is below 2^31
  (`Sections.PassedAsLocated`).
- A complete message that breaks off within a section is accepted if and only if that section is a
  value or data body whose descriptor is whole (`Recognition.TruncatedMessage`).
- A section with a value of the wrong type makes the message invalid, unless it is a value or data body:
  that counts as missing (`WrongTypes.WrongType`).
- If the body of a message has several sections, only the first is found and a footer is not
  (`Recognition.SeveralBodySections`).
- The check of a message that is not refused finds every buffer where it was if and only if no
  receiver took one with it when it went away (`Fanout.UnrefusedCheck`;
  `Fanout.SoleReceiverLeaves` is a run where one does).
- A receiver gets the whole message if and only if no buffer had been freed before it was
  registered (`Fanout.CompletedMessage`; `Fanout.LateReceiver` is a run where one does not).
- While memory for the lists lasts, the sequence number in a reference tells a stale one from a good
  one on all runs if and only if the pool has no limit on its global list (`AllocLives.ProtectsIff`;
  `AllocLives.StaleAccepted` has the failing run for every other pool).
- An unsigned number is read as a signed one if and only if it is in the range of the signed type of the
  width in which it is encoded; so 200 as a uint is, in its long form, and is not in its short form
  (`StandardTypes.ReadStandard`).
- Where the platform's characters are signed, a stored prefix is found by its segment hash in a table of
  256 times k buckets if and only if its number of octets from 0x80 on is a multiple of k
  (`PrefixLookup.VisibleIff`).

## Model

| member | source | states |
|---|---|---|
| `Patterns.MatchesIffAligned` | src/parse_tree.h:29-48 | a value matches a pattern if and only if the pattern's tokens can be aligned with it: a literal with itself, `*` with one token, `#` with any number |
| `Patterns.AlignmentSetIsExact` | src/parse_tree.h:29-48 | the collected alignments are exactly the alignments |
| `Patterns.AlignmentsAreCounted` | src/parse_tree.h:29-48 | the recursive count is the number of distinct alignments |
| `Patterns.OneGlobOneAlignment` | src/parse_tree.h:29-48 | a pattern with at most one `#` has at most one alignment with any value, so exactly one if it matches |
| `Patterns.ReportsAreAlignmentsIff` | src/parse_tree.c:598-612 | the search reports a pattern once per alignment on every value, if and only if the pattern does not end in two `#` |
| `Patterns.TwoGlobsFallShort` | src/parse_tree.c:598-612 | for every pattern that ends in two `#` there is a value on which it is reported too rarely |
| `Patterns.NormalizeReachesNormalForm` | src/parse_tree.c:148-194 | rewriting gives a pattern in which no wildcard follows a `#` |
| `Patterns.NormalFormIsFixed` | src/parse_tree.c:148-194 | rewriting is idempotent |
| `Patterns.NormalizeKeepsMeaning` | src/parse_tree.c:148-194 | rewriting keeps the set of values matched |
| `Patterns.NormalizeRun` | src/parse_tree.c:148-194 | a run of wildcards with k stars and at least one `#` becomes k stars and one `#` |
| `PatternForms.NormalFormIsCanonical` | src/parse_tree.c:148-194 | two patterns are rewritten to the same one if and only if they match the same values |
| `TokenText.IterInit` | src/parse_tree.c:54-100 | a token iterator starts at the tokens of the text without its leading separators; which tokens these are is what the `TokenSpelling` rows say |
| `TokenText.TokenIter.Token` | src/parse_tree.c:113-131 | the current token is the first of those left |
| `TokenText.TokenIter.Next` | src/parse_tree.c:88-117 | stepping drops exactly the first token |
| `TokenText.NormalizePattern` | src/parse_tree.c:148-194 | the in-place rewriting terminates, leaves the text of the normal form, and reports a change exactly if the pattern was not normal |
| `TokenSpelling.CutAtSeparators` | src/parse_tree.c:54-106 | separators, then tokens joined by separators, are cut into exactly those tokens: at `.` and `/` in an address, `.` in an AMQP 0-10 key, `/` in an MQTT topic, and at no other character |
| `TokenSpelling.EveryTextIsSpelled` | src/parse_tree.c:54-106 | every text is of that form, so this says where any text is cut |
| `TokenSpelling.WildcardsAreWhole` | src/parse_tree.c:62-76 | a pattern has one token per token of its text: `#` is the one for any number, `*` (for MQTT `+`) the one for exactly one, and any other stands for itself |
| `TokenSpelling.TextsAccepted` | src/parse_tree.c:833-866 | a text is valid exactly if it has a token and, for MQTT, `#` is none but the last |
| `TokenSpelling.SameKey` | src/parse_tree.c:365-457 | two texts are one pattern to a tree if and only if they match the same values, and to an MQTT tree if and only if they have the same tokens |
| `PatternSearch.SearchCount` | src/parse_tree.c:520-632 | for every tree, value and pattern the number of reports is known exactly, and nothing not stored is reported |
| `PatternSearch.SearchReportsAlignments` | src/parse_tree.c:520-632 | in a tree of normal-form patterns each stored pattern is reported once per alignment: never unless it matches |
| `PatternSearch.UnnormalizedPatternIsMissed` | src/parse_tree.c:598-612 | `#.#` matches the empty value, and no tree reports it there |
| `PatternSearch.SearchPrecedence` | src/parse_tree.c:520-554 | of two matching patterns whose first difference has no `#` before it, the more specific one is reported first |
| `PatternSearch.FirstMatchIsBest` | src/parse_tree.c:680-695 | something is reported exactly if a stored pattern matches, and the first report is not beaten by any stored matching pattern in this sense |
| `PatternSearch.FirstReportIsBest` | src/parse_tree.c:680-695 | the same in every tree, with reported in the place of matching |
| `PatternSearch.MatchesAreReported` | src/parse_tree.c:520-632 | what is reported matches, and what matches is reported unless the pattern ends in two globs |
| `PatternSearch.GlobHidesPrecedence` | src/parse_tree.c:598-612 | an input where it is the other way round: for the value a.c.a.b the pattern `#.a.#` is reported before `#.a.b` |
| `PatternOrder.SearchOrder` | src/parse_tree.h:85-118 | for any two stored patterns and any value: the more specific one is reported first if and only if the other does not overtake it at a common `#`, a condition on the patterns and the value alone |
| `PatternOrder.OneGlobOrder` | src/parse_tree.c:598-612 | of two reported patterns whose only `#` is a common one before their first difference, the more specific one is reported first if and only if it is not the shorter one |
| `PatternOrder.OvertakesIff` | src/parse_tree.c:598-612 | for patterns that do not end in two globs, overtaking in terms of matches: at some common `#` the tokens up to it match the value up to some point, the other pattern's tail matches the rest, and this pattern's tail from the `#` on matches a shorter rest |
| `PatternOrder.FirstOrder` | src/parse_tree.h:85-118 | of any two stored patterns, whether the more specific one has the first report of the two is decided by the patterns and the value alone, for any number of `#` |
| `PatternOrder.FirstReport` | src/parse_tree.c:680-695 | the first report of a search comes first, in this sense, against every stored pattern |
| `PatternOrder.FirstIsBest` | src/parse_tree.h:85-118 | there is a first report exactly if anything stored is reported; it is a match that no reported pattern beats and that comes first against all stored ones |
| `PatternSearch.DeliverIsPrefix` | src/parse_tree.c:520-632 | a callback that stops the search has seen a prefix of all reports |
| `HashTable.Table.FindInChain` | src/hash.c:294-306 | the walk through the bucket that a hash selects finds the item of a key exactly if the table has the key and the hash selects the key's bucket |
| `HashTable.Table.Retrieve` | src/hash.c:360-375 | retrieval is lookup in the table's map |
| `HashTable.Table.RetrieveWithHash` | src/hash.c:294-306 | so does retrieval with any given hash |
| `HashTable.Table.Insert` | src/hash.c:155-236 | insertion adds the key unless it is there, and returns a handle for it; earlier handles stay good |
| `HashTable.Table.Remove` | src/hash.c:420-432 | removal takes exactly the key out; its handle then refers to nothing and all others stay good |
| `HashTable.Table.RemoveByHandle` | src/hash.c:469-493 | removal by handle takes exactly the handle's key out; a used handle finds nothing |
| `PatternStore.HKeyInjective` | src/parse_tree.c:261-266 | hash keys of different (prefix, token) pairs differ, and only those |
| `ParseTree.ValidatePattern` | src/parse_tree.c:833-866 | a pattern is valid if it has a token and, for MQTT, no `#` before the last |
| `ParseTree.AcceptableKeysAreComplete` | src/parse_tree.c:833-866 | every valid pattern is stored under a key that the search reports completely |
| `ParseTree.Tree.constructor` | src/parse_tree.c:652-677 | a new tree is the empty map |
| `ParseTree.Tree.FindChild` | src/parse_tree.c:345-358 | the hash lookup finds exactly the literal child of the node |
| `ParseTree.Tree.AddPattern` | src/parse_tree.c:365-457 | adding extends the map by the normalized pattern; empty and duplicate patterns change nothing |
| `ParseTree.Tree.GetPattern` | src/parse_tree.c:461-511 | lookup finds the node of a pattern exactly if the map has it |
| `ParseTree.Tree.RemovePattern` | src/parse_tree.c:743-798 | removal returns the payload, takes the pattern out of the map, and leaves no leaf that ends no pattern |
| `ParseTree.Tree.FreeLeaf` | src/parse_tree.c:279-294 | freeing a leaf keeps map, hash and child pointers in agreement |
| `ParseTree.Tree.FindChildren` | src/parse_tree.c:520-554 | the recursive search delivers what the reference search reports, up to the point where the callback stops it |
| `ParseTree.Tree.MatchGlob` | src/parse_tree.c:598-614 | the same for a `#` node |
| `ParseTree.Tree.SearchText` | src/parse_tree.c:699-711 | searching a text delivers the reports of its tokens in order |
| `ParseTree.Tree.RetrieveMatch` | src/parse_tree.c:680-695 | first-match lookup returns the payload of a stored matching pattern that no other reported one beats and no other stored one comes before, if one is reported; every match is reported but for patterns ending in two globs, which only MQTT trees can hold |
| `Compose.InsertInto` | src/compose.c:60-84 | octets are appended across buffers of any capacity |
| `Compose.Overwrite32` | src/compose.c:118-142 | four octets are overwritten in place, also where they straddle buffers |
| `Compose.ComposedField.InsertLeaf` | src/compose.c:293-500 | a scalar is appended and accounted to the open composite |
| `Compose.ComposedField.StartComposite` | src/compose.c:145-183 | nine octets are reserved and their places remembered |
| `Compose.ComposedField.EndComposite` | src/compose.c:186-206 | size and count are written over the reserved octets, and the composite is accounted to the one around it |
| `Compose.ComposedField.ComposeTerm` | src/compose.c:145-206 | for every nested value and every buffer capacity the octets are the encoding of the value |
| `BufferField.Normalize` | src/buffer_field_api.h:38-52 | moving off the end of a buffer keeps the field |
| `BufferField.Ncopy` | src/buffer_field_api.h:86-116 | copying takes the first octets of the field |
| `BufferField.Advance` | src/buffer_field_api.h:125-151 | advancing drops the first octets of the field |
| `BufferField.TakeOctet` | src/buffer_field_api.h:160-175 | one octet, if there is one |
| `BufferField.TakeUint32` | src/buffer_field_api.h:184-198 | four octets as a big-endian number, if they are there |
| `BufferField.Equal` | src/buffer_field_api.h:226-263 | comparison with given octets, which are passed over exactly if they are equal |
| `AnnotationCode.AppendField` | src/buffer_field_api.h:274-292 | a field is copied to the end of a chain octet for octet |
| `Parse.ParseAmqpField` | src/parse.c:96-177 | one field parsed through a cursor is the field parsed from the flat octets, errors included |
| `Parse.ParseInternal` | src/parse.c:187-217 | the tree parsed through a cursor is that of the flat octets, so it does not depend on the split into buffers; the cursor never leaves the field |
| `Parse.ParseChildren` | src/parse.c:200-214 | the children are parsed up to the first that fails |
| `RoundTrip.ParseEncoded` | src/parse.c:187-217 | parsing an encoded value gives back its tree, whatever follows it |
| `RoundTrip.ComposeParseIff` | src/parse.c:166-167 | compose then parse succeeds if and only if every map has an even number of elements, and then is the identity |
| `RoundTrip.TermOfTree` | src/parse.c:187-217 | nothing of the value is lost in the tree |
| `RoundTrip.NodeBound` | src/parse.c:187-217 | for arbitrary octets there is at most one node per octet, plus one for an error |
| `RoundTrip.ParseIsExact` | src/parse.c:96-217 | every good node has exactly the octets it consumed: header, then value; its children lie in a row in the value and are as many as its count says |
| `RoundTrip.ParseIsLocal` | src/parse.c:96-217 | a good field parses the same whatever follows it: nothing outside it is read |
| `Readers.AsULong` | src/parse.c:355-440 | unsigned tags read as the big-endian number of their octets, signed ones if they are not negative; for the codes of the standard see `StandardTypes.ReadStandard` |
| `Readers.AsUInt` | src/parse.c:339-352 | the same if it is below 2^32, else an error |
| `Readers.AsLong` | src/parse.c:459-566 | signed tags read as the two's-complement number of their octets, unsigned ones if they are below the limit of their tag |
| `Readers.AsInt` | src/parse.c:443-456 | the same if it fits 32 bits, else an error |
| `Readers.AsBool` | src/parse.c:569-590 | a boolean in any of its forms |
| `Readers.ScalarRoundTrip` | src/compose.c:293-500 | every scalar is read back as it was written, in the short and the long form |
| `Readers.ValueRoundTrip` | src/compose.c:262-500 | every nested value is read back as it was written |
| `Readers.ComposeThenParse` | src/router_config.c:32-37 | composing a value into buffers of any capacity and parsing the buffers gives the value back, unless a map in it is odd |
| `StandardTypes.StandardField` | src/parse.c:96-177 | a field of any layout of the standard, with its constructor codes and widths written out, is parsed as such wherever it stands; only a map with an odd number of elements is refused |
| `StandardTypes.StandardFieldCut` | src/parse.c:96-177 | a field that breaks off anywhere is refused, with the error for what is missing |
| `StandardTypes.UnknownCode` | src/parse.c:108-160 | below 0x40 there are no constructors |
| `StandardTypes.ReadStandard` | src/parse.c:339-590 | a number or truth value in any of the encodings of the standard, wherever it lies in the buffers, is read back by every reader as that number or truth value, or refused if it is out of the range that the reader takes |
| `StandardTypes.ComposedLayout` | src/compose.c:145-206 | what the composer writes has the layout of the standard, sizes and counts included |
| `StandardTypes.ComposedIsShortest` | src/compose.c:293-390 | a composed number or truth value is an encoding of the standard, and none is shorter |
| `StandardTypes.ComposedValue` | src/compose.c:262-500 | the constructor codes of null, uuid, binary, string, symbol, list and map, with their forms by length |
| `Annotations.KeyOfText` | src/amqp.c:27-38 | each router key is recognized as itself |
| `Annotations.ReadUserPairs` | src/parse.c:868-884 | user entries are passed over and counted, octet for octet, whatever follows |
| `Annotations.UserPartIsWellFormed` | src/parse.c:718-897 | whatever section arrives, the part handed on as user annotations is exactly that many user fields |
| `AnnotationTypes.KeysSpelled` | src/amqp.c:27-38 | the names of the router annotations |
| `AnnotationTypes.KeyTold` | src/parse.c:782-866 | a key is taken for the name of a router annotation if and only if it is a symbol, in either form, with exactly that text |
| `AnnotationTypes.ReceivedTypes` | src/parse.c:770-890 | whatever octets arrive, an override or ingress that is kept is a string and a trace is a list of strings |
| `AnnotationTypes.WrongTypesRefused` | src/parse.c:718-897 | a section is refused if it is not a map or its first router annotation has a value of the wrong type; when annotations are stripped these are not looked at |
| `AnnotationCode.KeyAt` | src/parse.c:782-866 | keys are told apart by length and text |
| `AnnotationCode.ReadAllPairs` | src/parse.c:770-890 | the loop over the map entries computes the reference result |
| `AnnotationCode.ParseSection` | src/parse.c:718-897 | parsing through a cursor is parsing the flat section: found entries, user part, and all error cases |
| `AnnotationCode.ComposeAnnotations` | src/message.c:1693-1840 | header, user annotations and trailer together are the section; the running totals of size and count are those of what was written |
| `AnnotationCode.AddTrace` | src/message.c:1792-1826 | the trace entry is the old list with this router at its end, under a header computed before |
| `AnnotationCode.AddIngress` | src/message.c:1764-1790 | the ingress entry is the one received unless it is reset, else this router |
| `AnnotationCode.AddRouting` | src/message.c:1705-1762 | phase, streaming flag and address override; this copy's override comes before the one received (what the next router finds: `Hops.HopInFull`) |
| `Hops.FieldOfShort` | include/qpid/dispatch/compose.h:285-332 | a list or map header in the 8-bit or the 32-bit form is read back |
| `Hops.SectionParses` | src/message.c:1693-1840 | parsing a composed section gives the user annotations octet for octet and the router entries |
| `Hops.RestoredParses` | src/message.c:1669-1686 | a section restored for the endpoint has exactly the user annotations |
| `Hops.HopArrives` | src/message.c:1693-1840 | one hop under any filters and resets, whatever was received: a section that can be written is accepted exactly if its trace is a list of strings, and then the next router finds the same user annotations, the override, phase, flag and ingress as decided, and a trace with the received octets followed by this router's id and one element more |
| `Hops.HopInFull` | src/message.c:1693-1840 | one hop case by case: this copy's override goes before the received one, which is passed on if there is none; ingress, phase, streaming flag and trace under every filter and reset; the user annotations stay |
| `Hops.EdgeRouter` | src/router_node.c:325-368 | an edge router releases nothing and passes on neither trace nor ingress |
| `Hops.InteriorRouter` | src/router_node.c:716-737 | an interior router releases a message exactly if its trace has more elements than the radius plus one |
| `Hops.HopLengthens` | src/message.c:1792-1826 | a router that keeps the trace makes it longer by exactly one |
| `Hops.Journey` | src/message.c:1693-1840 | over any number of hops the user annotations stay the same, the ingress is the first router and the trace is the list of routers passed in order; the message gets through exactly if no router finds it beyond its radius |
| `Hops.RadiusBound` | src/router_node.c:716-737 | if no radius is above R and no router filters or resets the trace, a message passes at most R + 2 routers, those in the trace it came with included, whatever annotations it came with and whatever path it takes |
| `Hops.RadiusBoundFromStart` | src/router_node.c:716-737 | in particular a message without router annotations |
| `Traces.ReceivedTrace` | src/parse.c:184-213 | whatever octets arrive, the trace kept of them is a list of strings read from its value |
| `Traces.TraceAfterHop` | src/message.c:1792-1826 | one hop, for all flags and all received annotations: the next router reads the elements passed on and one more, which is this router if and only if nothing lies behind the received elements or what lies there spells this router's id; the section is accepted exactly if that element is a string |
| `Traces.ReadsAs` | src/parse.c:184-213 | octets spell an id, in one of the two forms of a string, if and only if they are read as it |
| `Traces.TraceWithLeftover` | src/message.c:1792-1826 | a received trace with one empty element and the octets of "x" behind it: whatever the id of this router, the next one reads the elements "" and "x" |
| `Traces.RoutersInOrder` | src/message.c:1792-1826 | over any path of routers that keep the trace, from any trace with nothing behind its elements, the trace is what it was followed by the routers passed, in order |
| `Sections.ArrivalIrrelevant` | src/message.c:2068-2257 | after any arrivals and checks in any order, every verdict and every section location is that of one check of the complete octets |
| `Sections.DecidedStays` | src/message.c:2068-2107 | a section that has been passed keeps its location for good |
| `Sections.SectionStable` | src/message.c:653-818 | a decided section status never changes; an undecided check leaves nothing behind that matters |
| `Sections.ExtentIsField` | src/message.c:714-768 | the recognizer moves past exactly the field that the parser parses, below 2^31 octets |
| `Sections.HugeSizeIsNotPassed` | src/message.c:763-768 | from 2^31 on only the size field is passed |
| `Sections.PassedAsLocated` | src/message.c:762-768 | a section that matches ends where its location says if and only if its size is below 2^31 |
| `SectionCode.CanAdvance` | src/message.c:374-385 | finds out whether an octet follows, and stands on it |
| `SectionCode.Advance` | src/message.c:402-428 | moves by a signed amount through the chain if the octets are there |
| `SectionCode.NextOctet` | src/message.c:483-491 | takes the next octet |
| `SectionCode.SectionCheck` | src/message.c:653-818 | the check in the buffer chain is the check of the flat octets, and after a match it has protected exactly the buffers that hold an octet of the section and counted those up to the last of them |
| `SectionCode.ProtectBuffers` | src/message.c:770-811 | the loops over the chain take a reference to exactly the buffers that hold an octet between two places, without the last one if it holds none, and count the buffers up to the last protected |
| `SectionCode.DepthCheck` | src/message.c:2068-2107 | the same for one section in both forms of its descriptor; what is found when is what the `Arriving` rows say |
| `SectionCode.BodyCheck` | src/message.c:2209-2231 | the same for the three kinds of body |
| `SectionCode.MessageCheck` | src/message.c:2110-2257 | the same for a check down to any depth; it protects the buffers of every section it passes but body and footer; once sending has freed buffers, what is not parsed yet is refused |
| `SectionCode.MessageContent.Receive` | src/message.c:1571-1645 | a buffer that comes in extends the octets and moves nothing |
| `SectionCode.MessageContent.EndOfMessage` | src/message.c:1346-1353 | the end of the message is the complete step of the reference |
| `SectionCode.MessageContent.FreeBuffer` | src/message.c:2009-2011 | sending takes a buffer out of the chain and counts it |
| `SectionCode.MessageContent.CheckTo` | src/message.c:2110-2257 | a check of the content object is a check step of the reference; once sending has freed a buffer it refuses what is not parsed yet and changes nothing |
| `Recognition.MessageRecognized` | src/message.c:2110-2257 | every well-formed message is in order and each section it has is found at its place with its length |
| `Recognition.ArrivingMessageRecognized` | src/message.c:2110-2257 | the same however the message arrives |
| `Recognition.TruncatedMessage` | src/message.c:2068-2257 | for every well-formed message and every cut within one of its sections: the complete message is accepted if and only if the cut is in a value or data body with a whole descriptor, and then the body does not count as parsed; otherwise it is invalid |
| `Recognition.ArrivingTruncation` | src/message.c:2068-2257 | the same however the truncated message arrives |
| `Recognition.SeveralBodySections` | src/message.c:2206-2242 | a message whose body has several sections, or any part of it that reaches beyond the first: in order if and only if the descriptor of the second is whole; all sections up to the first of the body are found, and a footer is not |
| `Recognition.PrimitiveIsTaken` | src/message.c:2213-2231 | the types taken as a value body are exactly the primitive types of the standard |
| `Arriving.DecidedSoFar` | src/message.c:2068-2130 | for every well-formed message and any part of it that has arrived: a check down to a section succeeds if and only if enough is there, and is incomplete otherwise; for a section that is present enough is all of it, for one that is not the descriptor of what follows |
| `Arriving.FoundWhileArriving` | src/message.c:2068-2130 | the same in every run, with every section up to there at its place with its length |
| `Arriving.NothingArrived` | src/message.c:2117-2124 | a message without any octet is incomplete while it arrives and invalid once it is complete |
| `WrongTypes.WrongType` | src/message.c:676-696 | a section with its descriptor and a value of a wrong type makes every check that reaches it invalid, complete or not; a value or data body counts as missing instead |
| `WrongTypes.WrongTypeArriving` | src/message.c:2068-2257 | the same in every run |
| `Fanout.ArriveKeeps` | src/message.c:1580-1586 | an arriving buffer gets a reference for every receiver |
| `Fanout.RegisterKeeps` | src/message.c:1265-1296 | a new receiver takes a reference to every buffer in the list |
| `Fanout.BeginKeeps` | src/message.c:1867-1945 | the first send starts at the head of the list, or sends the first octets and a new section and goes on behind the old one; skipped buffers keep their reference |
| `Fanout.SendKeeps` | src/message.c:1956-2040 | sending keeps the counts right and frees a buffer only when nobody needs it, however much the link takes |
| `Freeing.SendRound` | src/message.c:1989-2040 | one round of the send loop written out: what is sent, when it moves on to the next buffer, when the message is complete; the buffer left behind is freed if and only if no other receiver and no parsed section needs it |
| `Fanout.FreeKeeps` | src/message.c:1053-1077 | a receiver that goes away takes no buffer from another |
| `Freeing.ReceiverLeaves` | src/message.c:1053-1077 | a receiver that goes away: a buffer stays if and only if it lies behind the cursor, or another receiver or a parsed section needs it |
| `Freeing.KeptWhileNeeded` | src/message.c:2007-2011 | in every run, a buffer that anyone has held is in the list if and only if someone needs it: none is freed too early and none is left behind |
| `Freeing.CanFinish` | src/message.c:1956-2040 | from every state in which a receiver has been started, all of the message has arrived and it is not aborted, sends to this receiver complete it, and it has then been sent what it should |
| `Freeing.NothingAfterAbort` | src/message.c:1851-1958 | once a message is aborted no receiver is sent anything more, in any run |
| `Fanout.NobodyBefore` | src/message.c:1275-1284 | when the list is empty no receiver is registered, so the buffer that joins early has no references |
| `Fanout.NothingAheadIsFreed` | src/message.c:1956-2040 | in every run, all buffers that a registered message still has to send are in the list |
| `Fanout.UnrefusedCheck` | src/message.c:2125-2130 | in every run, if sending has freed nothing, so that a check is not refused, every buffer that arrived is in the list if and only if no receiver took one with it |
| `Fanout.SoleReceiverLeaves` | src/message.c:1062-1071 | a run in which the only receiver goes away before it has sent anything: its buffer is freed and nothing is counted |
| `Fanout.ProtectedOutlives` | src/message.c:786-792 | in every run, a buffer with a reference that no receiver gives back outlives all sends and frees |
| `Fanout.ProtectSteps` | src/message.c:786-792 | the references that a check takes are a sequence of steps that frees nothing |
| `Protection.HeldIsExact` | src/message.c:770-798 | a check of the message protects exactly the buffers that hold an octet of the sections it passes, other than body and footer |
| `Protection.SectionOutlives` | src/message.c:770-798 | whatever the receivers do after a section is found, no buffer is freed that holds one of its octets; below 2^31 these are the octets its location names |
| `Protection.CheckedOutlives` | src/message.c:770-811 | the same for a check down to any depth |
| `Protection.MessageProtected` | src/message.c:770-811 | checking a whole message, in buffers of any sizes, protects exactly the buffers that hold an octet before the body, and the count kept for flow control ends at the last of them |
| `Fanout.CompletedMessage` | src/message.c:1956-2040 | in every run, a completed message has sent, in order, exactly the buffers there at its registration and after, with the octets it skipped replaced by what it sent first; without annotation processing that is everything if and only if no buffer had been freed by then |
| `Fanout.LateReceiver` | src/message.c:1265-1296 | a run in which a buffer is freed before a receiver is registered, which completes without having sent it |
| `Delivery.RewrittenMessage` | src/message.c:1867-1945 | in every run, a receiver registered before any buffer was freed has in the end been sent header and delivery annotations as received, the new section, and everything behind the old one |
| `Delivery.SentMessage` | src/message.c:1867-2040 | for a message with given sections, what is sent is the message with just its annotations section replaced |
| `Delivery.NextRouterReads` | src/message.c:1693-2257 | the next router finds what it is sent in order, every section at its place, all but the annotations the same octets, and reads in the annotations the result of one hop |
| `FanoutCode.ReleaseFrom` | src/message.c:1062-1071 | the loop gives back every buffer from the cursor on and frees those nobody else holds |
| `FanoutCode.AdvanceGuarded` | src/message.c:449-479 | moving on through the chain ends at the right buffer and offset and hands over exactly the octets passed |
| `FanoutCode.SharedContent.ProtectAll` | src/message.c:786-792 | the references of a parsed section, one by one, are steps of the reference |
| `FanoutCode.SharedContent.AddFanout` | src/message.c:1265-1296 | registration as it runs takes the reference's step |
| `FanoutCode.SharedContent.BeginSend` | src/message.c:1851-1945 | so does the start of a send: header, delivery annotations and the new section are sent and the old section is skipped |
| `FanoutCode.SharedContent.SendSome` | src/message.c:1956-2040 | so does one round of the send loop, which `Freeing.SendRound` writes out |
| `FanoutCode.SharedContent.Free` | src/message.c:1041-1077 | so does freeing a message |
| `StreamData.InsertDataSection` | src/compose.c:393-428 | descriptor, binary header and the given buffers are appended |
| `StreamData.AppendStreamData` | src/message.c:2965-3012 | the data are appended as the sections of their groups |
| `StreamData.AppendDecodes` | src/message.c:2965-3012 | the sections decode to payloads that together are the data, none of more than 126 buffers |
| `StreamData.SectionOctets` | src/compose.c:393-428 | the octets of a data section |
| `StreamData.GroupsAreFull` | src/message.c:2980-3007 | every section but the last has exactly 126 buffers |
| `StreamData.SectionIsBody` | src/message.c:2209-2222 | the recognizer takes such a section for a data body |
| `AllocStack.LinkedStack.Pop` | src/alloc_pool.c:145-177 | pop takes the last item of the sequence |
| `AllocStack.LinkedStack.Push` | src/alloc_pool.c:191-224 | push appends an item unless memory for a chunk is missing |
| `AllocStack.SizeIsLength` | src/alloc_pool.c:128-134 | size, top chunk times chunk size plus top, and number of items agree |
| `AllocStack.UnorderedMove` | src/alloc_pool.c:226-256 | a bulk move shifts exactly what is asked for or there, or what it returns if memory runs out; the items of both stacks together stay the same |
| `AllocStack.Drain` | src/alloc_pool.c:565-570 | at the end a list is emptied and its items counted |
| `AllocCode.TypePool.TryAlloc` | src/alloc_pool.c:314-361 | the lock-free part of an allocation, on the chunked stack of the thread, is a step of the reference machine; an item it returns was not in use |
| `AllocCode.TypePool.Refill` | src/alloc_pool.c:363-407 | the locked part fetches a full batch from the global list, or else what the heap gives, and is a step of the reference machine |
| `AllocCode.TypePool.TakeItem` | src/alloc_pool.c:409-428 | the last part hands out an item of the batch that was not in use, or nothing if there is none |
| `AllocCode.TypePool.Alloc` | src/alloc_pool.c:314-429 | a whole allocation returns an item that nobody has, and adds just that to the items in use; it fails exactly if neither list can help and the heap gives nothing |
| `AllocCode.TypePool.FreeLocal` | src/alloc_pool.c:466-476 | the lock-free part of a free raises the sequence number, puts the item on the list or, if memory for that is missing, gives it back, and is a step of the reference machine |
| `AllocCode.TypePool.Spill` | src/alloc_pool.c:478-501 | the locked part always moves a full batch, drops what exceeds the limit, and is a step of the reference machine |
| `AllocCode.TypePool.Dealloc` | src/alloc_pool.c:433-501 | a whole free takes just the item out of use, with or without memory for the list |
| `AllocCode.TypePool.FinalizePool` | src/alloc_pool.c:562-590 | at the end the loops over the global list and the lists of all threads reach the final state of the reference |
| `AllocPool.HandedOutOnce` | src/alloc_pool.c:345-361 | an item that is handed out is nowhere else |
| `AllocPool.StepKeeps` | src/alloc_pool.c:314-500 | every step of every thread keeps every item in exactly one place and the statistics right |
| `AllocPool.HeapIsLastResort` | src/alloc_pool.c:363-500 | the heap is asked only by a thread whose list is empty when the global list has less than a batch, and for at most a batch; it gets items back only above the limit of the global list or for want of memory |
| `AllocPool.Disjoint` | src/alloc_pool.c:314-500 | for any number of threads and any order of steps, free lists have no duplicates, share no items, and hold nothing in use |
| `AllocPool.Statistics` | src/alloc_pool.c:367-500 | in every reachable state allocated minus freed is held plus global, held is thread lists plus items in use plus items lost for want of memory, and the list limits are kept |
| `AllocPool.StaleReference` | src/alloc_pool.c:466-515 | after a free the sequence number equals a recorded one if and only if the item has since been freed a multiple of 2^32 times, as long as it has not been back to the heap |
| `AllocLives.StaleAccepted` | include/qpid/dispatch/alloc_pool.h:94-103 | for every pool with a limit on its global list, and whatever the order in which batches are moved, a run in which an item is freed once, goes back to the heap, and is in use again with the number it had |
| `AllocLives.ProtectsIff` | include/qpid/dispatch/alloc_pool.h:94-103 | on all runs a number recorded while an item is in use differs from the item's number after 1 to 2^32 - 1 frees, if and only if the global list has no limit |
| `AllocPool.LeaksAreLiveItems` | src/alloc_pool.c:562-607 | what has not been given back at the end is exactly what is in use; what is then reported as still allocated exceeds that by exactly the items lost for want of memory |
| `PrefixLookup.Iter.Trim` | src/iterator.c:605-621 | trimming a view leaves its first characters |
| `PrefixLookup.HashViewSegments` | src/iterator.c:934-966 | one pass gives the hashes, as computed there with signed or unsigned characters, of exactly the prefixes bounded by a separator or a zero octet, and of the whole view |
| `PrefixLookup.Longest` | src/hash.c:316-334 | the reference: the longest bounded prefix that is stored, if any is |
| `PrefixLookup.LongestIs` | src/hash.c:316-334 | the same with the separators written out |
| `PrefixLookup.RetrievePrefix` | src/hash.c:316-334 | the lookup by segment hashes returns what a linear search of the visible part of the table's map would |
| `PrefixLookup.VisibleUnsigned` | include/qpid/dispatch/hash.h:31-32 | with unsigned characters all of the table is visible |
| `PrefixLookup.VisibleInSmall` | include/qpid/dispatch/hash.h:31-32 | with signed ones it is in a table whose size divides 256 |
| `PrefixLookup.VisibleIff` | src/iterator.c:918-956 | in a table of 256 times k buckets, exactly the keys are whose number of octets from 0x80 on is a multiple of k |
| `Policy.CompileAllowedCsv` | src/policy.c:1486-1561 | the list is compiled rule by rule, and the result fits the buffer whose size is computed first |
| `Policy.ApproveLinkName` | src/policy.c:773-891 | approval is a match with one of the triples, for malformed lists too |
| `Policy.CompiledMeaning` | src/policy.c:1515-1556 | a compiled rule stands for the rule with the user name in place of the first key |
| `Policy.CompileThenApprove` | src/policy.c:773-891 | compiling and approving gives the answer of substituting and comparing, for all lists whose rules do not come out empty |
| `Policy.Decide` | src/policy.c:773-891 | the two programs one after the other decide by the rules with the user name put in |
| `PolicySpelling.RulesListed` | src/policy.c:1486-1514 | a list of rules with commas between them has exactly those rules |
| `PolicySpelling.DecideListed` | src/policy.c:764-891 | a name is approved if and only if some rule, with the user name in place of its first `${user}`, is that name, or ends in `*` and the name begins with the rest |

## Left out

- AMQP arrays, floating point and decimal types; the composer's typed-iterator inserts.
- Readers.AsULong: a string read as a number is an error here; the source converts its text.
- Readers.AsUInt: a string read as a number is an error here; the source converts its text.
- Readers.AsLong: a string read as a number is an error here; the source converts its text.
- Readers.AsInt: a string read as a number is an error here; the source converts its text.
- Allocation failures outside the allocator.
- AllocLives.ProtectsIff: speaks of runs in which no free finds memory for the thread's list missing; such a free gives the item to the heap whatever the limit.
- AllocCode.TypePool.Spill: memory for the chunks of the global stack is there, as the source asserts that the whole batch is moved.
- Trees of pointers: parse-tree nodes are records in a map from ids, buffers are sequences in a list, and the chunks of a stack are sequences; aliasing beyond that is not captured.
- ParseTree.Tree.AddPattern: requires that the 32-bit prefix counter does not wrap during the addition, because the keys of different nodes are only then known to differ.
- ParseTree.Tree.RemovePattern: the assertion that the stored text equals the given text is not modelled; trees are keyed by token sequences.
- Compose.ComposedField.ComposeTerm: requires sizes and counts below 2^32, as the fields of the encoding do.
- Hops.Journey: bounds the size of the section by 2^32 octets and leaves edge routers, filters and resets to `Hops.HopInFull` and `Hops.EdgeRouter`.
- Annotations.ReadUserPairs: user entries after router entries are not covered, because the parser stops looking for them.
- Delivery.RewrittenMessage: the send starts when the old annotations have arrived, as the source's check before it does; the lengths of the sections are those found.
- Delivery.NextRouterReads: bounds the new section by 2^31 octets, beyond which no section is passed as located.
- SectionCode.MessageContent.CheckTo: a check after a receiver has taken a buffer with it is not modelled, as the chain it walks is then not that of the message (see `Fanout.UnrefusedCheck`).
- Fan-out of discarded messages, the stream-data consumer, and the Q2 and Q3 flow-control thresholds.
- StreamData.AppendStreamData: requires every section to stay below 2^32 octets.
- AllocStack.LinkedStack.Push: the chunk arrays are values, so that only the contents and not the memory layout are stated.
- PrefixLookup.VisibleIff: covers tables of up to 2^13 buckets; the largest the source makes has 2^12.
- Policy.ApproveLinkName: requires that no triple makes an empty name, since its last character is then read before the buffer.
- Policy.ApproveLinkName: the parse-tree variant of approval and the rest of policy are not modelled.
- Proton, sockets, threads as such, Python, logging, TLS and HTTP; the link takes any number of octets up to what is offered, and the heap gives any items it has not given already.
- Iterators over several buffers, address spaces and node views; the bitmask cache; management entities; debug-only allocator fields.
