# Verified models of FreeRDP client and channel logic

Dafny models of seven parts of FreeRDP whose correctness depends on many steps or many calls, with proofs about all
inputs, all runs or all reachable states. `dafny verify dfyconfig.toml` checks the whole project.

| part | modules |
|---|---|
| X11 clipboard engine | `XfFormats`, `XfAnnounce`, `XfClipboard`, `XfClipboardRuns`, `XfClipboardCache`, `XfCacheFill`, `XfIncremental`, `XfTargets`, `XfReplies`, `XfListsSent`, `XfClipboardClient` |
| Clipboard format lists on the wire | `FormatList` |
| Virtual-channel reassembly and worker | `ChannelWorker` |
| Two-level index of Huffman codes | `Bits`, `TwoLevelHash`, `HuffmanIndex` |
| Throttled resize | `DisplayResize` |
| Touch integers and RAIL system parameters | `TouchInput`, `RailSysParam` |
| Wayland wheel, blit and clipboard queue | `WaylandWheel`, `WaylandBlit`, `WaylandClipboard` |

`Common` holds bytes, little-endian words and the stream. Code that changes state is a class or a method with loops,
proved against functions on values; the theorems are about those functions and about runs of them. The clipboard
library is four functions (registered ids, whether data is taken, conversion of the data last taken, wire form of a
file list); what the X server, the RDP peer, the clock and the scheduler do comes in as the events of a run.

## What the proofs show about the code

Most properties hold as intended. These hold only under a condition, which is stated as an if-and-only-if, with an
input that fails:

- A long format list reads back exactly when no name is present but empty: such a name is written without its
  terminator (`FormatList.LongRoundTrip`, `FormatList.EmptyNameNotReadBack`).
- An incremental transfer gives the server what one property gives it, except for text without a null byte, which is
  read past the end of the assembled buffer (`XfIncremental.PiecesAsOne`, `XfIncremental.TextWithoutNull`).
- An announcement in the middle of an incremental transfer leaves the transfer open, and the next data in one piece gets
  no response (`XfIncremental.OnePieceAnswered`, `XfIncremental.BrokenOffTransfer`).
- UTF8_STRING and STRING share a local id. Once one of them was answered, the other is served that answer, converted from
  the first one's format. A cached answer is what the server would have been asked for exactly when the last fill was by
  the format's own rule, unless two of the answers taken happen to convert alike (`XfCacheFill.ServedAsIfAsked`,
  `XfCacheFill.SharedDestination`).
- The change test is right if and only if the list sent last holds no format twice, which lists made from targets never
  do and raw lists may (`XfAnnounce.ChangeTestExact`, `XfClipboardRuns.QuietInRuns`, `XfClipboardRuns.RawListHidesChange`).
- A message broken by a length mismatch leaves its bytes to the next one (`ChannelWorker.DeliveredIntact`,
  `ChannelWorker.MismatchSpoilsNext`).
- The index lookup fails for a code alone in its bucket with all seven high bits set
  (`TwoLevelHash.LookupAfterBuild`). Under the two hashes in use no such code has a bucket, so both indexes are right
  for every table that fits (`HuffmanIndex.LecLookup`, `HuffmanIndex.LomLookup`).
- The eight-byte touch integer loses the top three bits of middle bytes (`TouchInput.SurvivesIsIdentity`,
  `TouchInput.EightByteLoss`). The signed writers accept the least integer of their type and write a single byte.
- Blitted rows smear when destination rows overlap and the strides differ (`WaylandBlit.CopyIsExact`,
  `WaylandBlit.Smears`).
- A server data request with an id of 2^31 or more is never answered, and one that arrives while another is open
  replaces it (`XfClipboardRuns.ResponsesMatchRequests`, `XfClipboardRuns.HighIdUnanswered`,
  `XfClipboardRuns.OverlapLosesOne`).
- The targets offered are those of the last list of which the desktop was notified. They stand for formats of the server
  as long as that is also its last list; otherwise a target can be offered that stands for nothing
  (`XfTargets.OfferedInRuns`, `XfTargets.OfferedIsServed`, `XfTargets.OfferOutlivesList`).
- The hash tables take no key 0, so an answer that converts to id 0 leaves the X request held. That includes every raw
  transfer (`XfClipboardRuns.ResponseEffect`, `XfClipboardRuns.RawHeldUnanswered`). In the other direction raw data is
  refused for the same id (`XfClipboardRuns.RawRunsRefused`).
- `image/tiff` is registered for two formats, and the answer to a CF_DIB request can be read as CF_TIFF
  (`XfClipboardCache.RequestedIdIsSource`, `XfCacheFill.TiffReadsDib`).
- A Wayland request that was queued but could not be sent moves every later answer to the wrong file
  (`WaylandClipboard.RightFiles`, `WaylandClipboard.FailedSendMovesAnswers`).
- The Wayland client gives the server the data it asks for exactly for file lists and where there is none; all other data
  is dropped and the request reported as failed (`WaylandClipboard.OnlyFileListsAnswered`,
  `WaylandClipboard.RepliesInOrder`).
- The Wayland client reads an HTML or file answer as what it requested exactly when the server's list at that time still
  gives the id that name (`WaylandClipboard.NamedRequestIds`, `WaylandClipboard.ListChangeLosesName`).
- The blitted part lies inside the destination exactly when its top left corner does (`WaylandBlit.ClippedExactly`).
- A wheel turns 120 for each discrete step up to 17895697 steps, where the product leaves 32 bits
  (`WaylandWheel.WholeSteps`).

Two more: the Wayland client requests TIFF images, but has no conversion for them, and hands the answer on by a
conversion from id 0 to id 0 (`WaylandClipboard.TiffConvertedAsRaw`). And the list that the X11 client compares with is
the one the server has until a notification fails or the server sends a list; after a failed notification the same list
is not sent again (`XfListsSent.LastListSent`, `XfListsSent.FailedNotification`).

## Model

| member | source | states |
|---|---|---|
| `XfClipboardCache.CachesSound` | client/X11/xf_cliprdr.c:1268-1404 | in every run both caches hold only responses taken since the last cache clear, and conversions of them by the rule of a client format, from the id they were taken under |
| `XfClipboardCache.ImmediateData` | client/X11/xf_cliprdr.c:1487-1535 | in every run, data served at once is a response taken since the last clear, as it came for a raw request and otherwise the truncated conversion to the destination of the client format looked up |
| `XfClipboardCache.DeferredData` | client/X11/xf_cliprdr.c:2108-2277 | data served later is the response converted by the very rule the cached path uses for the target |
| `XfClipboardCache.RulesAgree` | client/X11/xf_cliprdr.c:1282-1345 | request path and response path use the same source id, destination id and NUL rule |
| `XfClipboardCache.LookupSound` | client/X11/xf_cliprdr.c:1347-1404 | looking up or rebuilding an entry keeps the caches sound and yields sourced data |
| `XfClipboardCache.ResponseKeepsSound` | client/X11/xf_cliprdr.c:2186-2259 | caching an answer and its conversion keeps the caches sound |
| `XfClipboardCache.OtherEventsKeepCaches` | client/X11/xf_cliprdr.c:814-856 | every other event leaves the caches alone or, when it announces a change, empties them |
| `XfClipboardCache.RequestedIdIsSource` | client/X11/xf_cliprdr.c:358-379 | for unnamed formats the answer is read under the requested id exactly when the two client formats involved request the same id |
| `XfClipboardCache.DistinctAtomsAgree` | client/X11/xf_cliprdr.c:342-379 | with distinct atoms those two client formats are one |
| `XfReplies.GivenAtOnce` | client/X11/xf_cliprdr.c:1347-1404 | in every run data given at once was handed to the library under the id of a client format and fetched as its destination, text and named formats up to the first null byte, from a response taken since the last clear; a raw request gets the response itself |
| `XfReplies.GivenLater` | client/X11/xf_cliprdr.c:2064-2279 | in every run data given later is what the library makes of the response between the ids of the selected client format, empty where it makes nothing; a raw response is answered only where it makes nothing |
| `XfReplies.TakenFrom` | client/X11/xf_cliprdr.c:2064-2279 | what was taken is a response event of the run, under the id of the client format of the request held then, with no clear after it |
| `XfReplies.ConvertedMakes` | client/X11/xf_cliprdr.c:2187-2215 | a conversion gives just what the library accepts under the source id and converts to the destination, cut at the first null byte where the format asks for it |
| `XfReplies.PlainReplies` | client/X11/xf_cliprdr.c:1126-1158 | in every run TIMESTAMP and TARGETS are answered with the time and with the targets for the last list notified, and without content where no property is named |
| `XfReplies.DataRequests` | client/X11/xf_cliprdr.c:1473-1566 | in every run a request for data is refused, answered or put to the server under the id of a listed format its target stands for, and when each happens |
| `XfReplies.MatchesExactly` | client/X11/xf_cliprdr.c:307-324 | unnamed formats match by id, named ones where the server's name begins the client's |
| `XfReplies.ResponseIsMade` | client/X11/xf_cliprdr.c:866-971 | a response holds data exactly where the owner's data, text cut at its first null and ended by one, is accepted under the local id and converted to the requested one, and for file lists put into wire form |
| `XfReplies.ServerGiven` | client/X11/xf_cliprdr.c:866-971 | in every run a response answers the id asked for last, and holds data exactly where the event brings the owner's data for that format and the library makes it |
| `XfReplies.TransferGiven` | client/X11/xf_cliprdr.c:1004-1108 | a transfer in pieces ends in one response, made of all the pieces in order |
| `XfReplies.OpenIsLast` | client/X11/xf_cliprdr.c:2012-2056 | in every run an open request is the last one the server made |
| `XfReplies.OwnerAsked` | client/X11/xf_cliprdr.c:2012-2056 | the owner is asked for the target of a client format with the requested id, and its answer is taken for that request |
| `XfReplies.OwnerResponds` | client/X11/xf_cliprdr.c:1004-1108 | what the owner sends answers an open request exactly once, also on failure, unless more is to come |
| `XfCacheFill.CacheIsLastFill` | client/X11/xf_cliprdr.c:1347-1404 | in every run an entry is there exactly when something was filled in since the last clear, and is the conversion filled in last |
| `XfCacheFill.StepFills` | client/X11/xf_cliprdr.c:1268-1280 | each event empties the converted cache, adds exactly its fill, or leaves it |
| `XfCacheFill.LastFillIsSourced` | client/X11/xf_cliprdr.c:2222-2259 | the last fill is by the rule of a client format and of a response taken since the last clear |
| `XfCacheFill.ServedIsLastFill` | client/X11/xf_cliprdr.c:1487-1528 | in every run, data served at once is the conversion filled in last for the destination asked for |
| `XfCacheFill.RawIsLastTaken` | client/X11/xf_cliprdr.c:2239-2262 | in every run the raw cache holds under each id the last response that came under it since the last clear |
| `XfCacheFill.ServedAsIfAsked` | client/X11/xf_cliprdr.c:1487-1528 | data served at once is as if the server had been asked exactly when the last fill was by the format's own rule, where no two of the answers taken since the last clear convert alike under different rules; the if half holds always |
| `XfCacheFill.CachedAsIfAsked` | client/X11/xf_cliprdr.c:1487-1528 | data served at once is as if the request had been put to the server, where no response since the last clear falls under another rule for that destination, in particular where the destination has one rule |
| `XfCacheFill.SharedDestination` | client/X11/xf_cliprdr.c:2386-2394 | the run in which a request for one of two client formats with the same local id is served the answer to the other, which is not what it asks for where the two request different formats |
| `XfCacheFill.TiffReadsDib` | client/X11/xf_cliprdr.c:2396-2432 | in every table that registers an atom for CF_TIFF first and for CF_DIB: the run in which CF_DIB is requested and its answer taken, converted and served as CF_TIFF |
| `XfCacheFill.ReadsAnotherFormat` | client/X11/xf_cliprdr.c:358-379 | the same for any two formats under one atom: the server is asked for the one it offers, and the answer is read by the rule of the one the atom selects |
| `XfClipboardRuns.RequestsAccounted` | client/X11/xf_cliprdr.c:1406-1566 | in every run each accepted request is, with multiplicity, answered, given up for a list, a failure or an empty answer, or held |
| `XfClipboardRuns.PendingHasFormat` | client/X11/xf_cliprdr.c:2108-2116 | in every run a held request has the format its target selects, so the error branch is unreachable |
| `XfClipboardRuns.RequestEffect` | client/X11/xf_cliprdr.c:1406-1566 | a request is ignored, answered at once, or held when nothing else is |
| `XfClipboardRuns.ResponseEffect` | client/X11/xf_cliprdr.c:2092-2277 | exactly when a response answers the held request, gives it up or leaves it held |
| `XfClipboardRuns.ServedTargetHasClient` | client/X11/xf_cliprdr.c:1459-1464 | a target that stands for a server format always has a client format |
| `XfClipboardRuns.RawHeldUnanswered` | client/X11/xf_cliprdr.c:2222-2239 | a held raw request is not answered by any convertible response |
| `XfClipboardRuns.ResponsesBalanced` | client/X11/xf_cliprdr.c:406-445 | in every run requests received equal responses sent, plus the open one, plus those lost to overlap or to their id |
| `XfClipboardRuns.ResponsesMatchRequests` | client/X11/xf_cliprdr.c:2013-2056 | responses and open request never exceed requests, with equality exactly when none overlaps and no id has its high bit set |
| `XfClipboardRuns.LostExactly` | client/X11/xf_cliprdr.c:2044-2046 | nothing is lost exactly when no request overlaps or is unanswerable |
| `XfClipboardRuns.HighIdUnanswered` | client/X11/xf_cliprdr.c:413-415 | a request with the high bit set gets no response |
| `XfClipboardRuns.OverlapLosesOne` | client/X11/xf_cliprdr.c:2012-2056 | the run of two requests of which at most one can still be answered |
| `XfClipboardRuns.LocalEffect` | client/X11/xf_cliprdr.c:843-879 | notifications, chunks and announcements answer an open request of the server at most once and touch no X request |
| `XfClipboardRuns.QuietReannouncement` | client/X11/xf_cliprdr.c:755-856 | unforced announcements do nothing for exactly the permutations of the list sent last, if and only if that list holds no format twice |
| `XfClipboardRuns.LastSentDistinct` | client/X11/xf_cliprdr.c:628-713 | in every such run the list sent last holds no format twice |
| `XfClipboardRuns.QuietInRuns` | client/X11/xf_cliprdr.c:755-856 | in every run whose announcements come from targets a list is announced again exactly when it is no permutation of the last |
| `XfClipboardRuns.RawListHidesChange` | client/X11/xf_cliprdr.c:569-609 | after announcing a raw list with a repetition some change goes unseen |
| `XfListsSent.StepSends` | client/X11/xf_cliprdr.c:814-856 | in every run an event sends exactly the list it announces, once, where it is forced or new and the notification succeeded, and that list becomes the one to compare with |
| `XfListsSent.SendsChanges` | client/X11/xf_cliprdr.c:755-856 | in every run with lists from targets a list is sent exactly when forced or no permutation of the last |
| `XfListsSent.LastListSent` | client/X11/xf_cliprdr.c:814-856 | in every run without a server list or failed notification since, the last list the server got is the one to compare with |
| `XfListsSent.FailedNotification` | client/X11/xf_cliprdr.c:849-852 | after any run, a list whose notification failed counts as sent and is not sent again |
| `XfListsSent.ListsAcknowledged` | client/X11/xf_cliprdr.c:1951-1990 | in every run the server gets one acknowledgement for each of its lists that was notified |
| `XfClipboardRuns.RawRunsRefused` | client/X11/xf_cliprdr.c:893-913 | in every run whose data requests find another client of this kind as owner, no response holds data |
| `XfClipboardRuns.TextEndsAtNull` | client/X11/xf_cliprdr.c:897-902 | text for the server counts up to its first null byte only |
| `XfIncremental.IncrementalTransfer` | client/X11/xf_cliprdr.c:1004-1108 | an INCR transfer with any number of chunks, among other events, sends nothing before its end and then exactly one response, made from the chunks in order and, for a text without a null byte, from what lies behind them |
| `XfIncremental.PiecesAsOne` | client/X11/xf_cliprdr.c:866-971 | a transfer in chunks sends what one property with the same bytes sends, exactly when the format is no text or the chunks hold a null byte |
| `XfIncremental.TextWithoutNull` | client/X11/xf_cliprdr.c:897-902 | a one-chunk text without a null byte is read past its end |
| `XfIncremental.OnePieceAnswered` | client/X11/xf_cliprdr.c:1071-1103 | data in one piece is responded to exactly when no transfer is under way |
| `XfIncremental.BrokenOffTransfer` | client/X11/xf_cliprdr.c:843-879 | the run in which an announcement breaks off a transfer and the next data in one piece gets no response |
| `XfIncremental.TransferStep` | client/X11/xf_cliprdr.c:1617-1624 | each chunk is appended and nothing is sent |
| `XfIncremental.RanFromInit` | client/X11/xf_cliprdr.c:1629-1697 | runs from the initial state are the runs of the engine |
| `XfTargets.OfferWellFormed` | client/X11/xf_cliprdr.c:1110-1124 | targets stay within the array of 20, none twice, the first two in place |
| `XfTargets.OfferExact` | client/X11/xf_cliprdr.c:1964-1982 | a target is offered only for a matching server format, and every match is offered while there is room |
| `XfTargets.OfferedInRuns` | client/X11/xf_cliprdr.c:1951-1982 | in every run the targets are those for the last list notified, while targets are looked up in the last list |
| `XfTargets.OfferedIsServed` | client/X11/xf_cliprdr.c:1951-1982 | in every run in which the desktop was notified of the last list, every offered target stands for a server format |
| `XfTargets.OfferOutlivesList` | client/X11/xf_cliprdr.c:1951-1962 | the run in which a list could not be notified: targets offered before stay offered and stand for nothing |
| `XfAnnounce.SameIsPermutation` | client/X11/xf_cliprdr.c:755-781 | no permutation of the last list counts as a change, and every other list does if the last one holds no format twice |
| `XfAnnounce.ChangeTestExact` | client/X11/xf_cliprdr.c:755-781 | the change test is right for all lists if and only if the last list holds no format twice |
| `XfAnnounce.RepetitionHidesChange` | client/X11/xf_cliprdr.c:755-781 | for every last list with a repetition a changed list that the test misses |
| `XfAnnounce.ContainedIsPermutation` | client/X11/xf_cliprdr.c:765-779 | the pigeonhole step behind it |
| `XfAnnounce.Changed` | client/X11/xf_cliprdr.c:755-781 | the nested loops compute the change test |
| `XfAnnounce.FormatEqual` | client/X11/xf_cliprdr.c:741-753 | equality of id and name, absent names included |
| `XfAnnounce.FromTargetsIds` | client/X11/xf_cliprdr.c:628-690 | lists made from targets have distinct ids, just those of the client formats the targets select |
| `XfAnnounce.FromTargetsExact` | client/X11/xf_cliprdr.c:628-690 | the list holds, in the order of the targets, id and name of each client format selected first for its id |
| `XfAnnounce.ByAtomIsFirst` | client/X11/xf_cliprdr.c:342-356 | the search by atom finds the first client format |
| `XfAnnounce.ByIdIsFirst` | client/X11/xf_cliprdr.c:326-340 | the search by id finds the first client format |
| `XfAnnounce.FormatsFromTargets` | client/X11/xf_cliprdr.c:628-690 | the loop builds that list |
| `XfAnnounce.ShouldAddFormat` | client/X11/xf_cliprdr.c:611-626 | true for a known format whose id is not in the list |
| `XfAnnounce.ClientFormatByAtom` | client/X11/xf_cliprdr.c:342-356 | the first client format with the atom |
| `XfAnnounce.ClientFormatById` | client/X11/xf_cliprdr.c:326-340 | the first client format with the id |
| `XfAnnounce.ByAtom` | client/X11/xf_cliprdr.c:342-356 | a hit has the atom, and a miss means that none has |
| `XfAnnounce.ById` | client/X11/xf_cliprdr.c:326-340 | a hit has the id, and a miss means that none has |
| `XfFormats.ParseSerialized` | client/X11/xf_cliprdr.c:447-555 | parsing the property gives the list without its raw entry, absent names made empty, exactly up to 255 entries |
| `XfFormats.SerializeParsed` | client/X11/xf_cliprdr.c:493-555 | what parses is the serialized form up to where parsing stopped |
| `XfFormats.SerializeServerFormatList` | client/X11/xf_cliprdr.c:447-491 | the loop over the growing stream writes the serialized form |
| `XfFormats.ParseServerFormatList` | client/X11/xf_cliprdr.c:493-555 | the loop computes the parse, errors included |
| `XfClipboardClient.FindServerFormat` | client/X11/xf_cliprdr.c:358-379 | the nested search for a target's server format |
| `XfClipboardClient.FormatsMatch` | client/X11/xf_cliprdr.c:307-324 | server names may be prefixes; unnamed formats match by id |
| `XfClipboardClient.Convert` | client/X11/xf_cliprdr.c:1359-1388 | set, get and cut at the first null byte |
| `XfClipboardClient.Clipboard.constructor` | client/X11/xf_cliprdr.c:2299-2532 | a new object is in the initial state |
| `XfClipboardClient.Clipboard.LookupCached` | client/X11/xf_cliprdr.c:1487-1516 | refines the cache lookup and rebuild |
| `XfClipboardClient.Clipboard.ServeRequest` | client/X11/xf_cliprdr.c:1487-1548 | refines serving, holding or refusing a data request |
| `XfClipboardClient.Clipboard.HandleSelectionRequest` | client/X11/xf_cliprdr.c:1406-1566 | refines the selection request handler |
| `XfClipboardClient.Clipboard.RuleForAnswer` | client/X11/xf_cliprdr.c:2108-2177 | refines the choice of ids and NUL rule |
| `XfClipboardClient.Clipboard.HandleServerDataResponse` | client/X11/xf_cliprdr.c:2063-2279 | refines the data response handler, including the refused key 0 |
| `XfClipboardClient.Clipboard.RespondToServer` | client/X11/xf_cliprdr.c:406-445 | refines the guarded response |
| `XfClipboardClient.Clipboard.HandleServerDataRequest` | client/X11/xf_cliprdr.c:2012-2056 | refines the data request handler |
| `XfClipboardClient.Clipboard.DataForServer` | client/X11/xf_cliprdr.c:887-968 | refines conversion for the server, including the search for the null byte past an assembled buffer |
| `XfClipboardClient.Clipboard.ProcessData` | client/X11/xf_cliprdr.c:866-971 | refines processing of local data |
| `XfClipboardClient.Clipboard.FetchRequestedData` | client/X11/xf_cliprdr.c:1004-1108 | refines reading the property and INCR assembly |
| `XfClipboardClient.Clipboard.FormatsToAnnounce` | client/X11/xf_cliprdr.c:692-713 | the raw list if it has entries, else the list from targets |
| `XfClipboardClient.Clipboard.AnnounceFormats` | client/X11/xf_cliprdr.c:814-856 | refines announcing a list |
| `XfClipboardClient.Clipboard.AppendToTargets` | client/X11/xf_cliprdr.c:1110-1124 | refines appending to the fixed array |
| `XfClipboardClient.Clipboard.AppendTargetsFor` | client/X11/xf_cliprdr.c:1968-1982 | refines the inner loop over client formats |
| `XfClipboardClient.Clipboard.OfferTargets` | client/X11/xf_cliprdr.c:1962-1982 | refines the loop over server formats |
| `XfClipboardClient.Clipboard.HandleServerFormatList` | client/X11/xf_cliprdr.c:1892-1990 | refines the format list handler, failed notification included |
| `XfClipboardClient.Clipboard.HandleSelectionNotify` | client/X11/xf_cliprdr.c:1243-1266 | refines the selection notify handler |
| `XfClipboardClient.Clipboard.HandlePropertyChunk` | client/X11/xf_cliprdr.c:1617-1624 | refines the property notify handler on our window |
| `XfClipboardClient.Clipboard.Handle` | client/X11/xf_cliprdr.c:1629-1697 | every event refines one step of the machine |
| `XfClipboardClient.Clipboard.HandleAll` | client/X11/xf_cliprdr.c:1629-1697 | every run of the object is a run of the machine, state and output |
| `FormatList.LongRoundTrip` | channels/cliprdr/cliprdr_common.c:319-379 | a long list of ASCII names reads back, empty names made absent, exactly when no name is present but empty |
| `FormatList.EmptyNameNotReadBack` | channels/cliprdr/cliprdr_common.c:352-370 | a present empty name makes the reader fail |
| `FormatList.ShortRoundTrip` | channels/cliprdr/cliprdr_common.c:258-318 | a short list reads back with names cut to 15 units and empty names made absent |
| `FormatList.ShortReadingExact` | channels/cliprdr/cliprdr_common.c:474-544 | success exactly on whole records whose names convert, and the count left behind otherwise |
| `FormatList.LongReadingExact` | channels/cliprdr/cliprdr_common.c:545-608 | success exactly on partitioned data whose names convert, and the count left behind otherwise |
| `FormatList.AsciiShortFormat` | channels/cliprdr/cliprdr_common.c:514-527 | an ASCII name is the block up to its first null byte, at most 31 bytes, or absent |
| `FormatList.CountedIsWritten` | channels/cliprdr/cliprdr_common.c:321-375 | the first pass never counts less than the second writes, and exactly as much when no name is present but empty |
| `FormatList.ParsePartition` | channels/cliprdr/cliprdr_common.c:545-602 | any sequence of id and NUL-terminated name records parses back to itself |
| `FormatList.PartitionParse` | channels/cliprdr/cliprdr_common.c:545-602 | success means the data is exactly partitioned into the records, as many as counted |
| `FormatList.CountLongList` | channels/cliprdr/cliprdr_common.c:321-337 | the first pass computes the counted length modulo 2^32 |
| `FormatList.WriteUtf16` | winpr/libwinpr/utils/stream.c:466-486 | writes the units and the fill, nothing for length 0, and fails where there is no room |
| `FormatList.WriteLongRecord` | channels/cliprdr/cliprdr_common.c:347-375 | appends one record wherever there is room for what was counted |
| `FormatList.WriteLongList` | channels/cliprdr/cliprdr_common.c:319-379 | the whole body is written exactly when its counted length and the header stay below 2^32 |
| `FormatList.WrappedDoesNotFit` | channels/cliprdr/cliprdr_common.c:336-345 | a body whose counted length wraps around is larger than its packet |
| `FormatList.WriteShortRecord` | channels/cliprdr/cliprdr_common.c:269-317 | appends one record of 36 bytes |
| `FormatList.WriteShortBody` | channels/cliprdr/cliprdr_common.c:269-317 | all records are written exactly when there is room for them |
| `FormatList.WriteShortList` | channels/cliprdr/cliprdr_common.c:258-318 | the body is written exactly when its length and the header stay below 2^32 |
| `FormatList.CountRecords` | channels/cliprdr/cliprdr_common.c:545-563 | the first pass succeeds exactly when the data is partitioned, and counts the whole records |
| `FormatList.FillRecords` | channels/cliprdr/cliprdr_common.c:578-602 | the second pass fills exactly the array the first pass sized |
| `FormatList.ReadLongList` | channels/cliprdr/cliprdr_common.c:545-608 | result, count and list, on errors too |
| `FormatList.FillShort` | channels/cliprdr/cliprdr_common.c:496-543 | fills the array from records of 36 bytes |
| `FormatList.ReadShortList` | channels/cliprdr/cliprdr_common.c:474-544 | result, count and list, on errors too |
| `FormatList.ReadFormatList` | channels/cliprdr/cliprdr_common.c:449-609 | reads exactly the announced bytes, or fails where the stream is shorter |
| `ChannelWorker.DeliveredIsConcatenation` | channels/client/addin.c:651-728 | in every run, malformed ones included, a delivered buffer is the concatenation of the fragments accepted since the last hand-over or reset |
| `ChannelWorker.MessageDelivered` | channels/client/addin.c:668-727 | from a clean start a well-formed message is delivered once and whole |
| `ChannelWorker.MessagesDelivered` | channels/client/addin.c:651-728 | any sequence of well-formed messages is delivered as sent, in order |
| `ChannelWorker.DeliveredIntact` | channels/client/addin.c:668-705 | after any history, and whether or not memory lasts, a message arrives intact exactly when the stream is clean and takes its total, or leftover bytes equal a refused first fragment and fill the stream |
| `ChannelWorker.TailDelivered` | channels/client/addin.c:685-705 | on any stream the fragments behind the first are delivered exactly when they fill it |
| `ChannelWorker.MismatchSpoilsNext` | channels/client/addin.c:694-702 | a message one byte short leaves its byte to the next |
| `ChannelWorker.PausesIgnored` | channels/client/addin.c:663-666 | in every run calls that suspend or resume make no difference to the stream and the deliveries |
| `ChannelWorker.RefusedExactly` | channels/client/addin.c:668-684 | when a call is refused, leaving all as it was |
| `ChannelWorker.SlackKeepsMessage` | channels/client/addin.c:670-674 | a stream that grows beyond the total keeps the message back |
| `ChannelWorker.ThreadedAsUnthreaded` | channels/client/addin.c:529-578 | for every interleaving the worker handles a prefix of the direct sequence, up to the first handler error, and all of it when it exits on quit |
| `ChannelWorker.RunInvariant` | channels/client/addin.c:529-578 | handled plus queued is the direct sequence at every point of every run |
| `ChannelWorker.WorkerExits` | channels/client/addin.c:730-760 | once quit is posted the worker exits within as many steps as messages are queued |
| `ChannelWorker.MsgProc.PostMessage` | channels/client/addin.c:651-728 | refines one fragment, threaded and unthreaded, with its return code |
| `ChannelWorker.MsgProc.WorkRound` | channels/client/addin.c:538-567 | one round of the loop refines a worker step |
| `ChannelWorker.MsgProc.ThreadProc` | channels/client/addin.c:529-578 | under every schedule of rounds, posts and quit the loop is a run of the system, up to the exit of the worker |
| `TwoLevelHash.LookupAfterBuild` | scripts/LECHash.c:54-81 | for every fitting table every code is found exactly when no lone code has all seven high bits set |
| `TwoLevelHash.BuildHashTable` | scripts/LECHash.c:54-71 | the in-place loop leaves first index, high bits of the second code, and fallback slots as specified |
| `TwoLevelHash.BuildRound` | scripts/LECHash.c:56-70 | one round of the loop, in place |
| `TwoLevelHash.InsertStep` | scripts/LECHash.c:56-70 | one round turns the contents for n codes into those for n + 1 |
| `TwoLevelHash.LookupFirstOrSecond` | scripts/LECHash.c:73-81 | lookup returns the index of a first, second or other lone code |
| `TwoLevelHash.LookupMasquerade` | scripts/LECHash.c:73-81 | it returns another value for the excluded code |
| `TwoLevelHash.HighFieldTest` | scripts/LECHash.c:77-77 | the shifted exclusive or is zero exactly when the high fields agree |
| `TwoLevelHash.FirstWordNotEmpty` | scripts/LECHash.c:60-68 | only the word of the last index can look like an empty one |
| `HuffmanIndex.LecLookup` | scripts/LECHash.c:36-81 | with the 9-bit hash every code of every fitting table is found |
| `HuffmanIndex.LomLookup` | scripts/LOMHash.c:13-56 | with the 5-bit hash every code of every fitting table is found |
| `HuffmanIndex.LecHighBits` | scripts/LECHash.c:36-41 | a key with all seven high bits set hashes outside the table |
| `HuffmanIndex.LomHighBits` | scripts/LOMHash.c:13-16 | a key with all seven high bits set hashes outside the table |
| `HuffmanIndex.LecMini` | scripts/LECHash.c:43-52 | the small hash is four bits of the folded code modulo 12, backwards for codes with high bits |
| `HuffmanIndex.LecMiniSmall` | scripts/LECHash.c:43-52 | below 256 these are the code's bits 2 to 5 |
| `HuffmanIndex.LomMini` | scripts/LOMHash.c:18-23 | the small hash bit by bit |
| `DisplayResize.AnnouncementsSpaced` | client/X11/xf_disp.c:122-185 | in every run with a monotone clock announcements are 200 ms apart, on X11 also from size changes before them |
| `DisplayResize.TargetAnnounced` | client/X11/xf_disp.c:122-175 | on both clients a target that stays is announced within 200 ms plus the longest timer gap: the last announcement in the log carries it |
| `DisplayResize.AnnouncedIsWanted` | client/X11/xf_disp.c:146-175 | in every run each announcement holds the layout wanted after its event, dated with its last reading, with all monitors in fullscreen on X11 and one otherwise |
| `DisplayResize.AnnouncesExactly` | client/X11/xf_disp.c:122-298 | an event announces exactly where the channel is there, the client looks, 200 ms have passed and the layout is new; it counts as announced exactly if the send succeeds |
| `DisplayResize.StampsExactly` | client/Wayland/wlf_disp.c:105-158 | from what the next 200 ms count on both clients |
| `DisplayResize.RunAsks` | client/X11/xf_disp.c:177-185 | in every run the wanted layout is the last size and settings asked for |
| `DisplayResize.ElapsedIs` | client/X11/xf_disp.c:140-141 | the difference of two 64-bit tick counts |
| `DisplayResize.StepKeepsSafe` | client/Wayland/wlf_disp.c:105-158 | every event keeps the spacing |
| `DisplayResize.DispContext.constructor` | client/X11/xf_disp.c:300-337 | a new context is safe and has the initial size as target and last sent |
| `DisplayResize.DispContext.SettingsChanged` | client/X11/xf_disp.c:66-98 | true exactly when the wanted layout differs from the last sent |
| `DisplayResize.DispContext.UpdateLastSent` | client/X11/xf_disp.c:100-120 | the last sent layout becomes the wanted one |
| `DisplayResize.DispContext.SendLayout` | client/X11/xf_disp.c:146-174 | refines one announcement |
| `DisplayResize.DispContext.SendResize` | client/Wayland/wlf_disp.c:105-158 | refines the throttled send of both clients |
| `DisplayResize.DispContext.HandleConfigure` | client/X11/xf_disp.c:177-185 | refines a new window size, on Wayland the configure event |
| `DisplayResize.DispContext.OnTimer` | client/X11/xf_disp.c:266-281 | refines the timer |
| `DisplayResize.DispContext.OnActivated` | client/X11/xf_disp.c:228-246 | refines activation |
| `DisplayResize.DispContext.OnGraphicsReset` | client/X11/xf_disp.c:248-264 | refines a graphics reset |
| `DisplayResize.DispContext.OnWindowStateChange` | client/X11/xf_disp.c:283-298 | refines a window state change |
| `DisplayResize.DispContext.OnSettings` | client/X11/xf_disp.c:66-98 | refines a change of the settings or of the window state |
| `DisplayResize.DispContext.OnCapabilities` | client/X11/xf_disp.c:481-508 | refines the server's capabilities |
| `DisplayResize.DispContext.OnConnected` | client/X11/xf_disp.c:510-550 | refines the channel's coming and going |
| `DisplayResize.DispContext.HandleAll` | client/X11/xf_disp.c:122-298 | the handlers refine every timed run |
| `TouchInput.DecodeWireAll` | channels/rdpei/rdpei_common.c:32-607 | any mix of in-range integers written back to back reads back, with exact consumption |
| `TouchInput.WireIsNumber` | channels/rdpei/rdpei_common.c:58-607 | the wire form is one big-endian number: the magnitude with count and sign above it |
| `TouchInput.WireLength` | channels/rdpei/rdpei_common.c:58-607 | the number of bytes by magnitude; the two-byte kinds write their limit with one more |
| `TouchInput.DecodedInRange` | channels/rdpei/rdpei_common.c:32-489 | every reader returns a value that its writer accepts |
| `TouchInput.DecodeWire` | channels/rdpei/rdpei_common.c:32-607 | reading what was written consumes just that and gives what survives |
| `TouchInput.SurvivesIsIdentity` | channels/rdpei/rdpei_common.c:491-607 | two- and four-byte kinds lose nothing; the eight-byte kind exactly when its middle bytes have clear top bits |
| `TouchInput.EightByteLoss` | channels/rdpei/rdpei_common.c:533-546 | 2^29 does not survive, and every smaller value does |
| `TouchInput.Write2ByteUnsigned` | channels/rdpei/rdpei_common.c:58-82 | writes the wire form in range and nothing otherwise |
| `TouchInput.Write2ByteSigned` | channels/rdpei/rdpei_common.c:113-152 | writes the wire form in range, 0x40 for -32768, and nothing otherwise |
| `TouchInput.Write4ByteUnsigned` | channels/rdpei/rdpei_common.c:206-250 | writes the wire form in range and nothing otherwise |
| `TouchInput.Write4ByteSigned` | channels/rdpei/rdpei_common.c:309-377 | writes the wire form in range, 0x20 for the least integer, and nothing otherwise |
| `TouchInput.Write8ByteUnsigned` | channels/rdpei/rdpei_common.c:491-607 | writes the wire form in range and nothing otherwise |
| `TouchInput.ReadInteger` | channels/rdpei/rdpei_common.c:32-489 | each reader computes the decoding, and fails where the data is too short |
| `RailSysParam.ReadBack` | channels/rail/rail_common.c:312-586 | what was written reads back with the same flag: exact consumption, the one mask bit, the one field, nothing else changed |
| `RailSysParam.WireLayout` | channels/rail/rail_common.c:477-586 | where each field lies in the order |
| `RailSysParam.MaskBitsApart` | channels/rail/rail_common.c:312-470 | each known code has a mask bit of its own |
| `RailSysParam.ReadFailsExactly` | channels/rail/rail_common.c:312-470 | when reading fails and with which error; an unknown code is taken without a field |
| `RailSysParam.WriteFailsExactly` | channels/rail/rail_common.c:477-586 | when writing fails |
| `RailSysParam.WriteSysParamOrder` | channels/rail/rail_common.c:477-586 | writes the wire form within the ensured capacity, or the error |
| `RailSysParam.ReadSysParamOrder` | channels/rail/rail_common.c:312-470 | computes the order read or the error, with the bytes consumed |
| `RailSysParam.WriteHighContrast` | channels/rail/rail_common.c:249-263 | writes flags, length and scheme with room ensured |
| `RailSysParam.WriteFilterKeys` | channels/rail/rail_common.c:291-305 | writes the five words with room ensured |
| `RailSysParam.WriteUnicodeString` | channels/rail/rail_common.c:179-193 | writes length and bytes with room ensured |
| `RailSysParam.ReadHighContrastField` | channels/rail/rail_common.c:228-242 | reads flags, length and scheme, or fails where the data is too short |
| `RailSysParam.ReadFilterKeysField` | channels/rail/rail_common.c:270-284 | reads the five words |
| `WaylandWheel.WheelRotation` | client/Wayland/wlf_input.c:190-244 | the steps of any scroll add up to its value with the sign of its axis, each between 1 and 255, as few as possible |
| `WaylandWheel.WholeSteps` | client/Wayland/wlf_input.c:286-296 | a discrete scroll asks for 120 a step exactly up to 17895697 steps |
| `WaylandWheel.FingerTurns` | client/Wayland/wlf_input.c:297-309 | a finger asks for twelve times its way, cut towards zero |
| `WaylandWheel.FrameSourceIsLast` | client/Wayland/wlf_input.c:258-268 | the source is the last one named |
| `WaylandWheel.FrameNeedsScaling` | client/Wayland/wlf_input.c:203-204 | a frame succeeds only where each scroll could be scaled and is on a known axis |
| `WaylandWheel.RefusedExactly` | client/Wayland/wlf_input.c:203-229 | a scroll is refused exactly for an unknown axis or a failed scaling, and then sends nothing |
| `WaylandWheel.FrameRotation` | client/Wayland/wlf_input.c:246-315 | a frame of any length turns each wheel by the sum of what its events ask for |
| `WaylandWheel.FailureIsLast` | client/Wayland/wlf_input.c:231-242 | the steps sent are a prefix whose last one fails exactly when not all are sent |
| `WaylandWheel.FrameSucceeds` | client/Wayland/wlf_input.c:246-315 | while scaling and sending succeed a frame sends all its steps and fails exactly for an unknown axis |
| `WaylandWheel.WheelInput.HandleWheel` | client/Wayland/wlf_input.c:190-244 | sends the steps in order up to the first failure, and reports it |
| `WaylandWheel.WheelInput.SendSteps` | client/Wayland/wlf_input.c:231-242 | the loop over the remaining value |
| `WaylandWheel.WheelInput.FindSource` | client/Wayland/wlf_input.c:258-268 | the last source event decides |
| `WaylandWheel.WheelInput.HandleScrolls` | client/Wayland/wlf_input.c:273-312 | the second pass sends each scroll up to its first failure, whatever happened to the ones before |
| `WaylandWheel.WheelInput.HandlePointerFrame` | client/Wayland/wlf_input.c:246-315 | a frame sends its scrolls under the last source, reports any failure, and is cleared |
| `WaylandBlit.CopyIsExact` | client/Wayland/wlfreerdp.c:752-768 | for all strides, every byte of every pixel of the clipped area is the source's byte at the same place whatever the source holds, exactly when rows do not smear |
| `WaylandBlit.PixelCopied` | client/Wayland/wlfreerdp.c:754-766 | byte 4x + b of row y of the destination is that of the source |
| `WaylandBlit.OthersKept` | client/Wayland/wlfreerdp.c:754-766 | every byte that belongs to no pixel of the clipped area keeps its value, also where rows smear |
| `WaylandBlit.RowsAreExact` | client/Wayland/wlfreerdp.c:761-767 | the same by rows, for any number and length of rows |
| `WaylandBlit.ClippedExactly` | client/Wayland/wlfreerdp.c:756-757 | the copied part lies inside the destination exactly when its top left corner does, and is the whole area where that fits |
| `WaylandBlit.CopiesRows` | client/Wayland/wlfreerdp.c:761-767 | without smear every pixel of every row arrives |
| `WaylandBlit.KeepsTheRest` | client/Wayland/wlfreerdp.c:761-767 | every byte outside the rows keeps its value |
| `WaylandBlit.Smears` | client/Wayland/wlfreerdp.c:761-767 | otherwise some source is copied wrongly |
| `WaylandBlit.TimesIsProduct` | client/Wayland/wlfreerdp.c:763-764 | the row offsets are the products the code computes |
| `WaylandBlit.CopyImage` | client/Wayland/wlfreerdp.c:752-768 | the loop of row copies, in place: every pixel of the clipped area arrives where rows do not smear, and every other byte keeps its value |
| `WaylandClipboard.FifoPairing` | client/Wayland/wlf_cliprdr.c:321-334 | in every run the i-th response that finds a request settles the i-th request enqueued |
| `WaylandClipboard.ClosedOnceOrQueued` | client/Wayland/wlf_cliprdr.c:104-138 | in every run each enqueued file is closed exactly once or still queued |
| `WaylandClipboard.RightFiles` | client/Wayland/wlf_cliprdr.c:842-926 | with an in-order server every answer reaches the file opened for it exactly when the requests taken were all sent |
| `WaylandClipboard.AnswerWritten` | client/Wayland/wlf_cliprdr.c:828-927 | in every run the i-th answer is converted between the ids of what the i-th request asked for and written as far as the file takes it, or only closed, exactly when |
| `WaylandClipboard.AskedInOrder` | client/Wayland/wlf_cliprdr.c:321-334 | in every run the server is asked for the formats of the requests queued and sent, in order |
| `WaylandClipboard.ReportedExactly` | client/Wayland/wlf_cliprdr.c:828-927 | success is reported exactly for a failure response or an answer written in full |
| `WaylandClipboard.EveryResponseTaken` | client/Wayland/wlf_cliprdr.c:842-844 | no response of such a server meets an empty queue |
| `WaylandClipboard.FailedSendMovesAnswers` | client/Wayland/wlf_cliprdr.c:327-333 | after a failed send an answer goes to the file before |
| `WaylandClipboard.OnlyFileListsAnswered` | client/Wayland/wlf_cliprdr.c:725-820 | the server gets what it asks for exactly for file lists and where there is no data |
| `WaylandClipboard.FileListReply` | client/Wayland/wlf_cliprdr.c:725-820 | a reply holds data exactly where a file list was asked for and the library makes it of the local one |
| `WaylandClipboard.RepliesInOrder` | client/Wayland/wlf_cliprdr.c:725-820 | in every run each data request gets one response, in order, and data only for file lists |
| `WaylandClipboard.NameReadsBack` | client/Wayland/wlf_cliprdr.c:496-523 | with distinct ids the id looked up for a name leads back to that name |
| `WaylandClipboard.IdOfIsFirst` | client/Wayland/wlf_cliprdr.c:496-510 | the id of the first format with the name, 0 for none |
| `WaylandClipboard.NamedRequestIds` | client/Wayland/wlf_cliprdr.c:877-900 | in every run the answer to an HTML or file request is read under the registered id of its format exactly when the list at the time of the answer gives the requested id that name |
| `WaylandClipboard.SameListNames` | client/Wayland/wlf_cliprdr.c:496-523 | while the list stays the same and its ids are distinct, that is where the id is not one of text or bitmaps |
| `WaylandClipboard.ListChangeLosesName` | client/Wayland/wlf_cliprdr.c:862-906 | the run in which a new list between an HTML request and its answer makes the answer be converted from id 0 to id 0 |
| `WaylandClipboard.TiffConvertedAsRaw` | client/Wayland/wlf_cliprdr.c:862-906 | the run in which a TIFF answer is written after a conversion from id 0 to id 0 |
| `WaylandClipboard.Clipboard.ServerFormatId` | client/Wayland/wlf_cliprdr.c:496-510 | the id of the first format with the name |
| `WaylandClipboard.Clipboard.ServerFormatName` | client/Wayland/wlf_cliprdr.c:512-523 | the name of the first format with the id |
| `WaylandClipboard.Clipboard.SendDataRequest` | client/Wayland/wlf_cliprdr.c:321-334 | queues before sending, and keeps the entry when sending fails |
| `WaylandClipboard.Clipboard.ClassifyMime` | client/Wayland/wlf_cliprdr.c:533-556 | what is requested and converted to for a mime type |
| `WaylandClipboard.Clipboard.TransferData` | client/Wayland/wlf_cliprdr.c:525-570 | refines a transfer request |
| `WaylandClipboard.Clipboard.ResponseIds` | client/Wayland/wlf_cliprdr.c:859-901 | refines the choice of ids |
| `WaylandClipboard.Clipboard.ServerDataResponse` | client/Wayland/wlf_cliprdr.c:827-927 | refines a response: head of the queue, at most one write, as much as the file takes, then the close and the return code |
| `WaylandClipboard.Clipboard.HandleAll` | client/Wayland/wlf_cliprdr.c:827-927 | every run of the object does to files and answers the server as the runs above do |
| `WaylandClipboard.Clipboard.AnswerDataRequest` | client/Wayland/wlf_cliprdr.c:725-820 | refines the data request handler |

## Left out

- X11, Uwac, Win32, OLE and Cocoa calls, windows, cursors and dialogs: user interface over libraries that are not part of this model.
- Connection set-up, authentication, certificate prompts and main loops: input and output.
- Floating-point scaling of coordinates and gestures; the scroll conversion of `WaylandWheel` is exact in binary floating point and is modelled.
- `client/Windows/wf_cliprdr.c`, fixed-size headers and records, lock and unlock, file-contents requests: would add only easy members.
- Allocation failures, except stream growth in `ChannelWorker`, and freeing of memory.
- UTF-8 and UTF-16 conversion beyond ASCII: the format lists take it as a function that is exact on ASCII.
- The internals of `wStream`, queues and hash tables; that a hash table refuses the key 0 is modelled.
- Selection ownership, XFixes, capabilities and the published raw format list of the X11 client: no effect on the properties; they appear as the source of announcement events.
- The code tables of the scripts: that the 293 and 32 codes meet `TwoLevelHash.Fits` is a finite check that is not part of this model.
- The layout sent by `xf_disp_handle_xevent` without the throttle, and `waitingResize`.
- The offers that the Wayland client makes to the compositor, and its client format list.
- Return codes of the X11 clipboard handlers, and the repeated request for TARGETS that follows an announcement.
- What a program does after reading past a buffer is not defined; the model takes the bytes found there as given, marks the read and goes on.
- Signed overflow is not defined in C; `TouchInput` and `WaylandWheel` take the negation of the least 32-bit integer, and `WaylandWheel` the product of steps and step width, to wrap around.
- WaylandBlit.CopyImage: asks for buffers that hold the copied rows, as memory has to, and speaks of pixels for destinations whose rows fit 64 bits in buffers of less than half the address space.
- FormatList.WriteLongList: does not say what is left in the stream where the list does not fit, because the stream asserts that it does.

Nothing was executed: every statement above is about the model and is checked by the verifier alone.
